/** The checks uploadImageToStorage makes before it stores an image (the
    storage quota, the file size and the file type, in that order) and the
    storage path it builds. The profile read, the storage service's answer,
    the clock and the random suffix are parameters. */
module UploadGate {
  import opened Wrappers
  import opened JsText

  /** 1 GiB of storage per user. */
  const StorageLimit := 1073741824
  /** 10 MiB per file. */
  const MaxFileSize := 10 * 1024 * 1024
  const AllowedTypes: seq<string> := ["image/jpeg", "image/jpg", "image/png", "image/webp"]
  const DefaultBucket := "images"
  const AnonymousOwner := "anonymous"

  datatype UploadedFile = UploadedFile(name: string, size: nat, mimeType: string)

  /** How reading the user's profile ended; a missing storage_used is None. */
  datatype ProfileRead = ProfileError | NoProfile | Profile(storageUsed: Option<nat>)

  /** How the storage service answered the upload. */
  datatype StorageOutcome = StorageFailed(message: string) | Stored(publicUrl: string)

  datatype UploadError =
    | StorageLimitExceeded(currentUsage: nat)
    | FileTooLarge(size: nat)
    | InvalidFileType(mimeType: string)
    | UploadFailed(message: string)

  datatype UploadResult = UploadResult(url: string, path: string, bucket: string)

  /** The text of the error that is thrown. */
  function Message(e: UploadError): (r: string)
    ensures e.StorageLimitExceeded? ==> Contains(r, "GB of 1.00GB.")
  {
    match e
    case StorageLimitExceeded(used) =>
      var lead := "Storage limit exceeded. You've used " + ToFixed2(used, StorageLimit);
      LimitPrintsAsOne();
      QuotaPhrase(lead, ToFixed2(StorageLimit, StorageLimit));
      lead + "GB of " + ToFixed2(StorageLimit, StorageLimit) + "GB." + QuotaAdvice
    case FileTooLarge(size) =>
      "File too large (" + ToFixed2(size, 1024 * 1024) + "MB). Maximum file size is 10MB."
    case InvalidFileType(t) =>
      "Invalid file type: " + t + ". Only JPEG, PNG, and WebP are allowed."
    case UploadFailed(m) =>
      "Upload failed: " + m
  }

  const QuotaAdvice := " Please delete some images or upgrade your plan."

  /** The quota prints as "1.00": 2^30 bytes are exactly 1 GiB. */
  lemma LimitPrintsAsOne()
    ensures ToFixed2(StorageLimit, StorageLimit) == "1.00"
  {
    assert RoundHalfUp(100 * StorageLimit, StorageLimit) == 100;
    assert NatToString(1) == "1";
  }

  lemma QuotaPhrase(lead: string, limit: string)
    requires limit == "1.00"
    ensures Contains(lead + "GB of " + limit + "GB." + QuotaAdvice, "GB of 1.00GB.")
  {
    var phrase := "GB of 1.00GB.";
    assert "GB of " + limit + "GB." == phrase;
    assert lead + "GB of " + limit + "GB." + QuotaAdvice == lead + phrase + QuotaAdvice;
    OccursInConcat(lead, phrase, QuotaAdvice);
  }

  /** The path starts with "uploads/" and ends with the extension. */
  lemma PathEnds(owner: string, stamp: string, random: string, ext: string)
    ensures var path := "uploads/" + owner + "_" + stamp + "_" + random + "." + ext;
      "uploads/" <= path && |ext| < |path| && path[|path| - |ext| - 1..] == "." + ext
  {
    var middle := owner + "_" + stamp + "_" + random;
    var path := "uploads/" + owner + "_" + stamp + "_" + random + "." + ext;
    assert path == "uploads/" + middle + ("." + ext);
    assert path[..8] == "uploads/";
  }

  /** `if (userId)`: present and not empty. */
  predicate HasUser(userId: Option<string>) {
    userId.Some? && userId.value != ""
  }

  /** The storage the user already uses, when the quota is checked at all:
      with a user id and a profile that was read. */
  function QuotaUsage(userId: Option<string>, profile: ProfileRead): Option<nat> {
    if HasUser(userId) && profile.Profile? then Some(profile.storageUsed.GetOr(0)) else None
  }

  /** The first check that fails, in the order quota, size, type. */
  function Gate(file: UploadedFile, userId: Option<string>, profile: ProfileRead): (r: Option<UploadError>)
    ensures r == None ==> file.size <= MaxFileSize && file.mimeType in AllowedTypes
    ensures r.Some? ==> !r.value.UploadFailed?
  {
    var usage := QuotaUsage(userId, profile);
    if usage.Some? && usage.value + file.size > StorageLimit then Some(StorageLimitExceeded(usage.value))
    else if file.size > MaxFileSize then Some(FileTooLarge(file.size))
    else if file.mimeType !in AllowedTypes then Some(InvalidFileType(file.mimeType))
    else None
  }

  /** `userId || 'anonymous'` */
  function Owner(userId: Option<string>): (r: string)
    ensures r != []
  {
    if HasUser(userId) then userId.value else AnonymousOwner
  }

  /** `uploads/${owner}_${timestamp}_${random}.${ext}`, the extension being
      the last dot-separated segment of the file name. */
  function UploadPath(userId: Option<string>, timestamp: nat, random: string, name: string): (r: string)
    ensures "uploads/" <= r
    ensures |AfterLast(name, '.')| < |r| && r[|r| - |AfterLast(name, '.')| - 1..] == "." + AfterLast(name, '.')
  {
    PathEnds(Owner(userId), NatToString(timestamp), random, AfterLast(name, '.'));
    "uploads/" + Owner(userId) + "_" + NatToString(timestamp) + "_" + random + "." + AfterLast(name, '.')
  }

  /** uploadImageToStorage */
  function UploadImage(file: UploadedFile, bucket: string, userId: Option<string>, profile: ProfileRead,
                       timestamp: nat, random: string, storage: StorageOutcome): (r: Result<UploadResult, UploadError>)
    ensures r.Ok? ==> Gate(file, userId, profile) == None && storage.Stored?
    ensures r.Ok? ==> r.value.url == storage.publicUrl && r.value.bucket == bucket
  {
    match Gate(file, userId, profile)
    case Some(e) => Err(e)
    case None =>
      var path := UploadPath(userId, timestamp, random, file.name);
      match storage
      case StorageFailed(m) => Err(UploadFailed(m))
      case Stored(url) => Ok(UploadResult(url, path, bucket))
  }

  // ---------------------------------------------------------------------
  // The checks

  /** With a user id and a profile, the quota rejects exactly when the
      storage already used (a missing value read as 0) plus the file
      exceeds 1 GiB; reaching it exactly is accepted. */
  lemma QuotaRejectsIff(file: UploadedFile, userId: Option<string>, profile: ProfileRead)
    requires HasUser(userId) && profile.Profile?
    ensures var used := profile.storageUsed.GetOr(0);
      Gate(file, userId, profile) == Some(StorageLimitExceeded(used)) <==> used + file.size > StorageLimit
  {
  }

  /** The quota is checked first: a file over quota gets the quota error
      even when it is also too large or of a wrong type. */
  lemma QuotaIsCheckedFirst(file: UploadedFile, userId: Option<string>, profile: ProfileRead)
    requires QuotaUsage(userId, profile).Some?
    requires QuotaUsage(userId, profile).value + file.size > StorageLimit
    ensures Gate(file, userId, profile).Some? && Gate(file, userId, profile).value.StorageLimitExceeded?
  {
  }

  /** Without a user id, or when the profile read fails or finds nothing,
      the quota is not checked: the verdict is that of an anonymous upload. */
  lemma QuotaSkipped(file: UploadedFile, userId: Option<string>, profile: ProfileRead)
    requires !HasUser(userId) || !profile.Profile?
    ensures Gate(file, userId, profile) == Gate(file, None, ProfileError)
    ensures forall used :: Gate(file, userId, profile) != Some(StorageLimitExceeded(used))
  {
  }

  /** Past the quota, a file over 10 MiB is rejected for its size; exactly
      10 MiB of an allowed type passes. */
  lemma SizeLimit(file: UploadedFile, userId: Option<string>, profile: ProfileRead)
    requires QuotaUsage(userId, profile).None? || QuotaUsage(userId, profile).value + file.size <= StorageLimit
    ensures file.size > MaxFileSize ==> Gate(file, userId, profile) == Some(FileTooLarge(file.size))
    ensures file.size == MaxFileSize && file.mimeType in AllowedTypes ==> Gate(file, userId, profile) == None
  {
  }

  /** The whole verdict: a file passes exactly when it fits the quota (when
      checked), is at most 10 MiB and is of one of the four types. */
  lemma GateAcceptsIff(file: UploadedFile, userId: Option<string>, profile: ProfileRead)
    ensures Gate(file, userId, profile) == None <==>
      && (QuotaUsage(userId, profile).None? || QuotaUsage(userId, profile).value + file.size <= StorageLimit)
      && file.size <= MaxFileSize
      && file.mimeType in AllowedTypes
  {
  }

  /** An accepted upload lands in the requested bucket, at the built path,
      under the public URL the service gives. */
  lemma AcceptedUploadResult(file: UploadedFile, bucket: string, userId: Option<string>, profile: ProfileRead,
                             timestamp: nat, random: string, url: string)
    requires Gate(file, userId, profile) == None
    ensures UploadImage(file, bucket, userId, profile, timestamp, random, Stored(url))
      == Ok(UploadResult(url, UploadPath(userId, timestamp, random, file.name), bucket))
  {
  }

  /** A failed check or a failed upload is an error, and nothing is stored. */
  lemma RejectedUploadFails(file: UploadedFile, bucket: string, userId: Option<string>, profile: ProfileRead,
                            timestamp: nat, random: string, storage: StorageOutcome)
    ensures Gate(file, userId, profile).Some? ==>
      UploadImage(file, bucket, userId, profile, timestamp, random, storage) == Err(Gate(file, userId, profile).value)
    ensures Gate(file, userId, profile).None? && storage.StorageFailed? ==>
      UploadImage(file, bucket, userId, profile, timestamp, random, storage) == Err(UploadFailed(storage.message))
  {
  }

  // ---------------------------------------------------------------------
  // The path can be read back

  /** Math.random().toString(36).substring(2, 9): base-36 digits only. */
  predicate Base36(s: string) {
    forall i :: 0 <= i < |s| ==> ('0' <= s[i] <= '9') || ('a' <= s[i] <= 'z')
  }

  datatype PathParts = PathParts(owner: string, timestamp: nat, random: string, extension: string)

  /** The index of the first c in s, or |s|. */
  function IndexOf(s: string, c: char): (i: nat)
    ensures i <= |s| && c !in s[..i]
    ensures i < |s| ==> s[i] == c
  {
    if s == [] then 0
    else if s[0] == c then 0
    else
      var i := 1 + IndexOf(s[1..], c);
      assert s[..i] == [s[0]] + s[1..][..i - 1];
      i
  }

  /** The text before and after the first c in s, when there is one. */
  function SplitFirst(s: string, c: char): (r: Option<(string, string)>)
    ensures r.Some? ==> s == r.value.0 + [c] + r.value.1 && c !in r.value.0
    ensures r.None? <==> c !in s
  {
    var i := IndexOf(s, c);
    if i == |s| then
      assert s[..i] == s;
      None
    else
      assert s == s[..i] + [c] + s[i + 1..];
      Some((s[..i], s[i + 1..]))
  }

  /** Splitting at the first c finds the c placed after a text without one. */
  lemma SplitFirstJoin(a: string, c: char, b: string)
    requires c !in a
    ensures SplitFirst(a + [c] + b, c) == Some((a, b))
  {
    var s := a + [c] + b;
    assert s[|a|] == c;
    var r := SplitFirst(s, c);
    assert r.value.0 == s[..|a|] == a;
    assert r.value.1 == s[|a| + 1..] == b;
  }

  predicate AllDigits(s: string) {
    forall d :: 0 <= d < |s| ==> IsDigit(s[d])
  }

  /** Splits a path built by UploadPath back into its parts. */
  function ParsePath(path: string): (r: Option<PathParts>)
    ensures r.Some? ==> "uploads/" <= path && '_' !in r.value.owner && '.' !in r.value.random
  {
    if |path| < 8 || path[..8] != "uploads/" then None
    else
      match SplitFirst(path[8..], '_')
      case None => None
      case Some((owner, afterOwner)) =>
        match SplitFirst(afterOwner, '_')
        case None => None
        case Some((digits, afterStamp)) =>
          if digits == [] || !AllDigits(digits) then None
          else
            match SplitFirst(afterStamp, '.')
            case None => None
            case Some((random, extension)) => Some(PathParts(owner, DigitsValue(digits), random, extension))
  }

  lemma RegroupPath(p: string, o: string, u: string, s: string, r: string, d: string, e: string)
    ensures p + o + u + s + u + r + d + e == p + (o + u + (s + u + (r + d + e)))
  {
  }

  lemma PrefixAndRest(p: string, s: string)
    ensures (p + s)[..|p|] == p && (p + s)[|p|..] == s
  {
  }

  /** Reading the path back gives the owner, the timestamp, the random
      suffix and the extension it was built from, provided the user id has
      no underscore. */
  lemma ParseUploadPath(userId: Option<string>, timestamp: nat, random: string, name: string)
    requires '_' !in Owner(userId) && Base36(random)
    ensures ParsePath(UploadPath(userId, timestamp, random, name))
      == Some(PathParts(Owner(userId), timestamp, random, AfterLast(name, '.')))
  {
    var stamp := NatToString(timestamp);
    assert '_' !in stamp by {
      forall d | 0 <= d < |stamp| ensures stamp[d] != '_' {
        assert IsDigit(stamp[d]);
      }
    }
    assert '.' !in random by {
      forall d | 0 <= d < |random| ensures random[d] != '.' {
        assert Base36(random);
      }
    }
    ParseOfParts(Owner(userId), stamp, random, AfterLast(name, '.'));
    NatToStringRoundTrip(timestamp);
  }

  /** The parser undoes the layout of the path for any parts that keep the
      separators out of the places they separate. */
  lemma ParseOfParts(owner: string, stamp: string, random: string, ext: string)
    requires '_' !in owner && '_' !in stamp && '.' !in random
    requires stamp != [] && AllDigits(stamp)
    ensures ParsePath("uploads/" + owner + "_" + stamp + "_" + random + "." + ext)
      == Some(PathParts(owner, DigitsValue(stamp), random, ext))
  {
    var tail := random + "." + ext;
    var afterOwner := stamp + "_" + tail;
    var rest := owner + "_" + afterOwner;
    RegroupPath("uploads/", owner, "_", stamp, random, ".", ext);
    PrefixAndRest("uploads/", rest);
    SplitFirstJoin(owner, '_', afterOwner);
    SplitFirstJoin(stamp, '_', tail);
    SplitFirstJoin(random, '.', ext);
  }

  /** Two uploads of the same owner with the same random suffix get
      different paths when their timestamps differ. */
  lemma PathsOfDifferentInstantsDiffer(userId: Option<string>, t1: nat, t2: nat, random: string, n1: string, n2: string)
    requires '_' !in Owner(userId) && Base36(random) && t1 != t2
    ensures UploadPath(userId, t1, random, n1) != UploadPath(userId, t2, random, n2)
  {
    ParseUploadPath(userId, t1, random, n1);
    ParseUploadPath(userId, t2, random, n2);
  }
}
