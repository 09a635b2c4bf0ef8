/** The message a user is shown for a caught error: in production only a
    few kinds of message are shown as they are, the rest are replaced by
    fixed texts; in development the message itself is shown. */
module ErrorSanitize {
  import opened JsText
  import opened UploadGate

  /** What was thrown: an Error with its message, or any other value,
      given by its String() conversion. */
  datatype Thrown = ErrorValue(message: string) | OtherValue(text: string)

  const NetworkMessage := "Network error. Please check your connection and try again."
  const AuthMessage := "Authentication error. Please sign in again."
  const GenericMessage := "An error occurred. Please try again or contact support if the problem persists."
  const UnexpectedMessage := "An unexpected error occurred."

  /** The case-sensitive substrings that let a message through in
      production. */
  predicate SafeToShow(m: string) {
    Contains(m, "rate limit") || Contains(m, "credit") || Contains(m, "storage")
  }

  /** sanitizeError, with NODE_ENV == 'production' as isProd. */
  function SanitizeError(error: Thrown, isProd: bool): (r: string)
    ensures isProd ==>
      (r in {NetworkMessage, AuthMessage, GenericMessage, UnexpectedMessage}
       || (error.ErrorValue? && r == error.message && SafeToShow(r)))
  {
    match error
    case ErrorValue(m) =>
      if !isProd then m
      else if Contains(m, "fetch") then NetworkMessage
      else if Contains(m, "unauthorized") || Contains(m, "auth") then AuthMessage
      else if Contains(m, "rate limit") then m
      else if Contains(m, "credit") then m
      else if Contains(m, "storage") then m
      else GenericMessage
    case OtherValue(text) =>
      if isProd then UnexpectedMessage else "Unknown error: " + text
  }

  // ---------------------------------------------------------------------
  // Properties

  /** Outside production an Error shows its own message, and any other
      value is named. */
  lemma DevelopmentShowsDetails(error: Thrown)
    ensures error.ErrorValue? ==> SanitizeError(error, false) == error.message
    ensures error.OtherValue? ==> SanitizeError(error, false) == "Unknown error: " + error.text
  {
  }

  /** In production the answer is one of four: the network text, the
      authentication text, the message itself when it is safe to show, or
      the generic text, in that order of precedence. */
  lemma ProductionPrecedence(m: string)
    ensures Contains(m, "fetch") ==> SanitizeError(ErrorValue(m), true) == NetworkMessage
    ensures !Contains(m, "fetch") && Contains(m, "auth") ==> SanitizeError(ErrorValue(m), true) == AuthMessage
    ensures !Contains(m, "fetch") && !Contains(m, "auth") && SafeToShow(m) ==> SanitizeError(ErrorValue(m), true) == m
    ensures !Contains(m, "fetch") && !Contains(m, "auth") && !SafeToShow(m) ==> SanitizeError(ErrorValue(m), true) == GenericMessage
  {
    if Contains(m, "unauthorized") {
      UnauthorizedMentionsAuth(m);
    }
  }

  /** "unauthorized" contains "auth", so the first half of the
      authentication test never decides anything on its own. */
  lemma UnauthorizedMentionsAuth(m: string)
    requires Contains(m, "unauthorized")
    ensures Contains(m, "auth")
  {
    var i :| 0 <= i <= |m| - |"unauthorized"| && OccursAt(m, "unauthorized", i);
    assert m[i + 2..i + 6] == m[i..i + 12][2..6];
    assert OccursAt(m, "auth", i + 2);
  }

  /** In production a message is shown verbatim only when it is safe to
      show and mentions neither fetch nor auth, or when it happens to be
      one of the fixed texts. */
  lemma ShownVerbatimOnlyWhenSafe(m: string)
    requires SanitizeError(ErrorValue(m), true) == m
    ensures (SafeToShow(m) && !Contains(m, "fetch") && !Contains(m, "auth"))
      || m in {NetworkMessage, AuthMessage, GenericMessage}
  {
    ProductionPrecedence(m);
  }

  /** A value that is not an Error never shows its text in production. */
  lemma ProductionHidesOtherValues(text: string)
    ensures SanitizeError(OtherValue(text), true) == UnexpectedMessage
  {
  }

  const StorageLimitText := "Storage limit exceeded"

  lemma StorageLimitTextMentionsNoFailure()
    ensures !Contains(StorageLimitText, "fetch")
    ensures !Contains(StorageLimitText, "unauthorized") && !Contains(StorageLimitText, "auth")
  {
    PairAbsent(StorageLimitText, "fetch", 0);
    PairAbsent(StorageLimitText, "unauthorized", 0);
    PairAbsent(StorageLimitText, "auth", 0);
  }

  lemma StorageLimitTextIsNotSafe()
    ensures !SafeToShow(StorageLimitText)
  {
    PairAbsent(StorageLimitText, "rate limit", 2);
    PairAbsent(StorageLimitText, "credit", 0);
    PairAbsent(StorageLimitText, "storage", 0);
  }

  /** The tests are case-sensitive: a capitalised "Storage" is not a
      storage message, so it becomes the generic text. */
  lemma CapitalisedStorageIsGeneric()
    ensures SanitizeError(ErrorValue(StorageLimitText), true) == GenericMessage
  {
    StorageLimitTextMentionsNoFailure();
    StorageLimitTextIsNotSafe();
  }

  /** The quota error the upload throws reaches a production user as the
      generic text, whatever the usage it reports: its only mention of
      storage is capitalised, and the printed usage holds no letters. */
  lemma QuotaMessageIsGeneric(used: nat)
    ensures SanitizeError(ErrorValue(Message(StorageLimitExceeded(used))), true) == GenericMessage
  {
    var m := Message(StorageLimitExceeded(used));
    var a := "Storage limit exceeded. You've used ";
    var x := ToFixed2(used, StorageLimit);
    var b := "GB of 1.00GB." + QuotaAdvice;
    QuotaMessageParts(used);
    PrintedUsageIsNumeric(used);
    QuotaLeadMentionsNone(a);
    QuotaTailMentionsNone(b);
    AbsentAround(a, x, b, "fetch");
    AbsentAround(a, x, b, "auth");
    AbsentAround(a, x, b, "rate limit");
    AbsentAround(a, x, b, "credit");
    AbsentAround(a, x, b, "storage");
    if Contains(m, "unauthorized") {
      UnauthorizedMentionsAuth(m);
    }
  }

  /** The quota message is its lead, the printed usage, and its tail. */
  lemma QuotaMessageParts(used: nat)
    ensures Message(StorageLimitExceeded(used))
      == "Storage limit exceeded. You've used " + ToFixed2(used, StorageLimit) + ("GB of 1.00GB." + QuotaAdvice)
  {
    LimitPrintsAsOne();
  }

  /** The printed usage is digits and a decimal point. */
  lemma PrintedUsageIsNumeric(used: nat)
    ensures var x := ToFixed2(used, StorageLimit);
      x != [] && forall i :: 0 <= i < |x| ==> IsDigit(x[i]) || x[i] == '.'
  {
    ToFixed2Reads(used, StorageLimit);
  }

  /** A lower-case word absent from a and b is absent from a + x + b when x
      is a printed number. */
  lemma AbsentAround(a: string, x: string, b: string, t: string)
    requires x != [] && forall i :: 0 <= i < |x| ==> IsDigit(x[i]) || x[i] == '.'
    requires forall j :: 0 <= j < |t| ==> t[j] == ' ' || 'a' <= t[j] <= 'z'
    requires !Contains(a, t) && !Contains(b, t)
    ensures !Contains(a + x + b, t)
  {
    if Contains(a + x + b, t) {
      ContainsAroundForeign(a, x, b, t);
    }
  }

  /** No adjacent pair of letters from fetch, auth, rate limit, credit
      or storage: "fe", "au", "at", "cr", "st". */
  predicate NoTestedPair(s: string) {
    && PairFree(s, 'f', 'e') && PairFree(s, 'a', 'u') && PairFree(s, 'a', 't')
    && PairFree(s, 'c', 'r') && PairFree(s, 's', 't')
  }

  /** Without those pairs, none of the words the production branch tests
      for occurs. */
  lemma NoTestedPairMentionsNone(s: string)
    requires NoTestedPair(s)
    ensures !Contains(s, "fetch") && !Contains(s, "auth") && !Contains(s, "rate limit")
    ensures !Contains(s, "credit") && !Contains(s, "storage")
  {
    PairAbsent(s, "fetch", 0);
    PairAbsent(s, "auth", 0);
    PairAbsent(s, "rate limit", 1);
    PairAbsent(s, "credit", 0);
    PairAbsent(s, "storage", 0);
  }

  lemma NoTestedPairConcat(s1: string, s2: string)
    requires NoTestedPair(s1) && NoTestedPair(s2)
    requires s1 != [] && s1[|s1| - 1] !in "facs"
    ensures NoTestedPair(s1 + s2) && (s1 + s2)[|s1 + s2| - 1] == if s2 == [] then s1[|s1| - 1] else s2[|s2| - 1]
  {
    PairFreeConcat(s1, s2, 'f', 'e');
    PairFreeConcat(s1, s2, 'a', 'u');
    PairFreeConcat(s1, s2, 'a', 't');
    PairFreeConcat(s1, s2, 'c', 'r');
    PairFreeConcat(s1, s2, 's', 't');
  }

  lemma QuotaLeadMentionsNone(a: string)
    requires a == "Storage limit exceeded. You've used "
    ensures !Contains(a, "fetch") && !Contains(a, "auth") && !Contains(a, "rate limit")
    ensures !Contains(a, "credit") && !Contains(a, "storage")
  {
    var p, q, r := "Storage limit ", "exceeded.", " You've used ";
    assert a == p + q + r;
    LeadPiecesHaveNoTestedPair();
    NoTestedPairConcat(p, q);
    NoTestedPairConcat(p + q, r);
    NoTestedPairMentionsNone(a);
  }

  lemma QuotaTailMentionsNone(b: string)
    requires b == "GB of 1.00GB." + QuotaAdvice
    ensures !Contains(b, "fetch") && !Contains(b, "auth") && !Contains(b, "rate limit")
    ensures !Contains(b, "credit") && !Contains(b, "storage")
  {
    var p, q, r, w := "GB of 1.00GB.", " Please delete some", " images or", " upgrade your plan.";
    assert QuotaAdvice == q + r + w;
    assert b == p + q + r + w;
    TailPiecesHaveNoTestedPair();
    NoTestedPairConcat(p, q);
    NoTestedPairConcat(p + q, r);
    NoTestedPairConcat(p + q + r, w);
    NoTestedPairMentionsNone(b);
  }

  lemma LeadPiecesHaveNoTestedPair()
    ensures NoTestedPair("Storage limit ") && NoTestedPair("exceeded.") && NoTestedPair(" You've used ")
  {
  }

  lemma TailPiecesHaveNoTestedPair()
    ensures NoTestedPair("GB of 1.00GB.") && NoTestedPair(" Please delete some")
    ensures NoTestedPair(" images or") && NoTestedPair(" upgrade your plan.")
  {
    AdvicePiecesHaveNoTestedPair();
  }

  lemma AdvicePiecesHaveNoTestedPair()
    ensures NoTestedPair(" images or") && NoTestedPair(" upgrade your plan.")
  {
  }
}
