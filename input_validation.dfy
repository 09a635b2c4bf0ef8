/** Validators for prompts, negative prompts, uploaded files, e-mail
    addresses and passwords, and the prompt sanitiser. Every validator runs
    an ordered chain of checks and reports the first one that fails. */
module InputValidation {
  import opened Wrappers
  import opened JsText

  datatype ValidationResult = Valid | Invalid(error: string)

  const MinPromptLength := 3
  const MaxPromptLength := 2000
  const MaxNegativePromptLength := 1000
  const MaxRepeatedWords := 20
  const MaxFileSize := 10 * 1024 * 1024
  const MaxEmailLength := 254
  const MinPasswordLength := 8
  const MaxPasswordLength := 128

  const PromptRequired := "Prompt is required"
  const PromptTooShort := "Prompt must be at least 3 characters"
  const PromptTooLong := "Prompt too long. Maximum 2000 characters allowed"
  const PromptBlocked := "Invalid content detected. Please remove special characters or code."
  const PromptRepetitive := "Prompt contains too much repetition. Please provide varied description."
  const NegativePromptTooLong := "Negative prompt too long. Maximum 1000 characters allowed"
  const NegativePromptBlocked := "Invalid content detected in negative prompt."

  /** Everything validatePrompt can answer with. */
  const PromptMessages: set<string> := {PromptRequired, PromptTooShort, PromptTooLong, PromptBlocked, PromptRepetitive}

  // ---------------------------------------------------------------------
  // The blocklist

  /** /(<script|javascript:|onerror=|onload=)/i */
  const ScriptTokens: seq<string> := ["<script", "javascript:", "onerror=", "onload="]
  /** /(eval\(|exec\(|system\()/i */
  const CallTokens: seq<string> := ["eval(", "exec(", "system("]
  /** /(\bDROP\b|\bDELETE\b|\bTRUNCATE\b)/i, in lower case */
  const SqlKeywords: seq<string> := ["drop", "delete", "truncate"]
  /** /(\.\.\/|\.\.\\)/ */
  const TraversalTokens: seq<string> := ["../", "..\\"]

  /** A case-insensitive search for one of the lower-case tokens. */
  predicate ContainsTokenIgnoringCase(s: string, tokens: seq<string>) {
    exists k :: 0 <= k < |tokens| && Contains(Lower(s), tokens[k])
  }

  /** w occurs at i in s with a \b on both sides. */
  predicate WholeWordAt(s: string, w: string, i: int) {
    && OccursAt(s, w, i)
    && (i == 0 || !IsWordChar(s[i - 1]))
    && (i + |w| == |s| || !IsWordChar(s[i + |w|]))
  }

  /** One of the SQL keywords stands as a whole word, in any case. */
  predicate ContainsSqlKeyword(s: string) {
    var lower := Lower(s);
    exists k, i :: 0 <= k < |SqlKeywords| && 0 <= i <= |lower| && WholeWordAt(lower, SqlKeywords[k], i)
  }

  predicate ContainsTraversal(s: string) {
    exists k :: 0 <= k < |TraversalTokens| && Contains(s, TraversalTokens[k])
  }

  /** The three patterns that both prompt validators test. */
  predicate MatchesCodePattern(s: string) {
    ContainsTokenIgnoringCase(s, ScriptTokens) || ContainsTokenIgnoringCase(s, CallTokens) || ContainsSqlKeyword(s)
  }

  // ---------------------------------------------------------------------
  // Prompts

  /** The number of different words, as `new Set(words).size`. */
  function DistinctCount(words: seq<string>): nat {
    |set w | w in words|
  }

  /** More than 20 words of which fewer than 30% are different. The ratio
      test `unique / total < 0.3` is written without division; with at most
      2000 characters there are at most 1001 words, far too few for double
      rounding to move the quotient across 0.3. */
  predicate TooRepetitive(words: seq<string>) {
    |words| > MaxRepeatedWords && 10 * DistinctCount(words) < 3 * |words|
  }

  /** validatePrompt: a missing or empty prompt is required; every other
      check looks at the trimmed prompt. */
  function ValidatePrompt(prompt: string): (r: ValidationResult)
    ensures r.Valid? ==> prompt != "" && MinPromptLength <= |Trim(prompt)| <= MaxPromptLength
    ensures r.Invalid? ==> r.error in PromptMessages
  {
    if prompt == "" then Invalid(PromptRequired) else CheckTrimmedPrompt(Trim(prompt))
  }

  /** The checks of validatePrompt after trimming, in their order. */
  function CheckTrimmedPrompt(trimmed: string): (r: ValidationResult)
    ensures r.Valid? ==> MinPromptLength <= |trimmed| <= MaxPromptLength
    ensures r.Invalid? ==> r.error in {PromptTooShort, PromptTooLong, PromptBlocked, PromptRepetitive}
  {
    if |trimmed| < MinPromptLength then Invalid(PromptTooShort)
    else if |trimmed| > MaxPromptLength then Invalid(PromptTooLong)
    else if MatchesCodePattern(trimmed) || ContainsTraversal(trimmed) then Invalid(PromptBlocked)
    else if TooRepetitive(SplitOnSpaces(trimmed)) then Invalid(PromptRepetitive)
    else Valid
  }

  /** The messages of validatePrompt tell its checks apart. */
  lemma PromptMessagesDiffer()
    ensures PromptRepetitive !in {PromptRequired, PromptTooShort, PromptTooLong, PromptBlocked}
  {
    assert |PromptRequired| == 18 && |PromptTooShort| == 36 && |PromptTooLong| == 48;
    assert |PromptBlocked| == 67 && |PromptRepetitive| == 71;
  }

  /** validateNegativePrompt: optional, untrimmed, a lower ceiling, and
      neither the traversal nor the repetition check. */
  function ValidateNegativePrompt(prompt: string): (r: ValidationResult)
    ensures r.Valid? ==> |prompt| <= MaxNegativePromptLength
    ensures r.Invalid? ==> prompt != "" && r.error in {NegativePromptTooLong, NegativePromptBlocked}
  {
    if prompt == "" then Valid
    else if |prompt| > MaxNegativePromptLength then Invalid(NegativePromptTooLong)
    else if MatchesCodePattern(prompt) then Invalid(NegativePromptBlocked)
    else Valid
  }

  /** The converse of ValidateNegativePrompt's contract: a negative prompt
      is valid exactly when it is empty, or at most 1000 characters with no
      code pattern. Path traversal and repetition never reject it. */
  lemma ValidNegativePromptIff(prompt: string)
    ensures ValidateNegativePrompt(prompt) == Valid
      <==> prompt == "" || (|prompt| <= MaxNegativePromptLength && !MatchesCodePattern(prompt))
    ensures ValidateNegativePrompt(prompt) == Invalid(NegativePromptTooLong) <==> |prompt| > MaxNegativePromptLength
    ensures ValidateNegativePrompt(prompt) == Invalid(NegativePromptBlocked)
      <==> prompt != "" && |prompt| <= MaxNegativePromptLength && MatchesCodePattern(prompt)
    ensures ValidateNegativePrompt(prompt) != Invalid(PromptBlocked)
    ensures ValidateNegativePrompt(prompt) != Invalid(PromptRepetitive)
  {
    NegativeMessagesDiffer();
  }

  /** The negative prompt's two messages differ from each other and from
      validatePrompt's blocked and repetitive messages. */
  lemma NegativeMessagesDiffer()
    ensures NegativePromptTooLong != NegativePromptBlocked
    ensures PromptBlocked !in {NegativePromptTooLong, NegativePromptBlocked}
    ensures PromptRepetitive !in {NegativePromptTooLong, NegativePromptBlocked}
  {
    assert |NegativePromptTooLong| == 57 && |NegativePromptBlocked| == 44;
    assert |PromptBlocked| == 67 && |PromptRepetitive| == 71;
  }

  lemma EmptyPromptIsRequired()
    ensures ValidatePrompt("") == Invalid(PromptRequired)
    ensures ValidateNegativePrompt("") == Valid
  {
  }

  /** A prompt of whitespace only fails the minimum-length check. */
  lemma BlankPromptIsTooShort(prompt: string)
    requires prompt != "" && AllSpace(prompt)
    ensures ValidatePrompt(prompt) == Invalid(PromptTooShort)
  {
    TrimEmptyIff(prompt);
  }

  /** Past the emptiness check the verdict depends on the trimmed prompt only. */
  lemma PromptVerdictDependsOnTrim(p: string, q: string)
    requires p != "" && q != "" && Trim(p) == Trim(q)
    ensures ValidatePrompt(p) == ValidatePrompt(q)
  {
  }

  /** The whole verdict of validatePrompt, stated check by check. */
  lemma ValidPromptIff(prompt: string)
    ensures ValidatePrompt(prompt).Valid? <==>
      && prompt != ""
      && MinPromptLength <= |Trim(prompt)| <= MaxPromptLength
      && !MatchesCodePattern(Trim(prompt))
      && !ContainsTraversal(Trim(prompt))
      && !TooRepetitive(SplitOnSpaces(Trim(prompt)))
  {
  }

  /** Repetition never rejects a prompt of 20 words or fewer. */
  lemma ShortPromptsAreNeverRepetitive(prompt: string)
    requires |SplitOnSpaces(Trim(prompt))| <= MaxRepeatedWords
    ensures ValidatePrompt(prompt) != Invalid(PromptRepetitive)
  {
    if prompt != "" {
      var t := Trim(prompt);
      assert !TooRepetitive(SplitOnSpaces(t));
      PromptMessagesDiffer();
      assert CheckTrimmedPrompt(t) in {Valid, Invalid(PromptTooShort), Invalid(PromptTooLong), Invalid(PromptBlocked)};
    }
  }

  lemma LowerCharKeepsClasses(c: char)
    ensures IsSpace(LowerChar(c)) == IsSpace(c)
    ensures IsWordChar(LowerChar(c)) == IsWordChar(c)
  {
  }

  /** A token that neither starts nor ends with whitespace, written in any
      case and surrounded by any text, survives trimming: the trimmed
      prompt contains it, in lower case, at the returned index. */
  lemma TokenSurvivesTrim(a: string, x: string, b: string, token: string) returns (m: nat)
    requires Lower(x) == token && token != [] && !IsSpace(token[0]) && !IsSpace(token[|token| - 1])
    ensures |Trim(a + x + b)| >= |token|
    ensures m <= |a| && OccursAt(Lower(Trim(a + x + b)), token, m)
    ensures m > 0 ==> Lower(Trim(a + x + b))[m - 1] == LowerChar(a[|a| - 1])
    ensures m + |x| < |Trim(a + x + b)| ==> b != [] && Lower(Trim(a + x + b))[m + |x|] == LowerChar(b[0])
  {
    LowerCharKeepsClasses(x[0]);
    LowerCharKeepsClasses(x[|x| - 1]);
    m := TrimKeepsInfix(a, x, b);
    LowerKeepsOccurrence(Trim(a + x + b), x, m);
  }

  /** Once the trimmed prompt is long enough and matches a blocked
      pattern, the verdict is "too long" or "blocked". */
  lemma MatchedPromptIsRejected(prompt: string)
    requires prompt != "" && |Trim(prompt)| >= MinPromptLength
    requires MatchesCodePattern(Trim(prompt)) || ContainsTraversal(Trim(prompt))
    ensures ValidatePrompt(prompt) in {Invalid(PromptTooLong), Invalid(PromptBlocked)}
  {
  }

  /** The script and call tokens are long enough to pass the minimum-length
      check and neither starts nor ends with whitespace. */
  lemma BlockedTokenShape(tokens: seq<string>, k: nat)
    requires tokens == ScriptTokens || tokens == CallTokens
    requires k < |tokens|
    ensures |tokens[k]| >= MinPromptLength
    ensures !IsSpace(tokens[k][0]) && !IsSpace(tokens[k][|tokens[k]| - 1])
  {
  }

  /** A prompt that contains a script or call token, in any case, is
      rejected, whatever text surrounds the token. */
  lemma PromptWithTokenIsRejected(a: string, x: string, b: string, tokens: seq<string>, k: nat)
    requires tokens == ScriptTokens || tokens == CallTokens
    requires k < |tokens| && Lower(x) == tokens[k]
    ensures ValidatePrompt(a + x + b) in {Invalid(PromptTooLong), Invalid(PromptBlocked)}
  {
    BlockedTokenShape(tokens, k);
    TokenFoundAfterTrim(a, x, b, tokens, k);
    assert MatchesCodePattern(Trim(a + x + b));
    MatchedPromptIsRejected(a + x + b);
  }

  /** A token from a list, written in any case inside a prompt, is found by
      the case-insensitive search in the trimmed prompt. */
  lemma TokenFoundAfterTrim(a: string, x: string, b: string, tokens: seq<string>, k: nat)
    requires k < |tokens| && Lower(x) == tokens[k] && |tokens[k]| >= MinPromptLength
    requires !IsSpace(tokens[k][0]) && !IsSpace(tokens[k][|tokens[k]| - 1])
    ensures |Trim(a + x + b)| >= MinPromptLength
    ensures ContainsTokenIgnoringCase(Trim(a + x + b), tokens)
  {
    var m := TokenSurvivesTrim(a, x, b, tokens[k]);
    assert Contains(Lower(Trim(a + x + b)), tokens[k]);
  }

  /** A SQL keyword in any case, standing as a whole word, is rejected. */
  lemma PromptWithSqlKeywordIsRejected(a: string, x: string, b: string, k: nat)
    requires k < |SqlKeywords| && Lower(x) == SqlKeywords[k]
    requires a == [] || !IsWordChar(a[|a| - 1])
    requires b == [] || !IsWordChar(b[0])
    ensures ValidatePrompt(a + x + b) in {Invalid(PromptTooLong), Invalid(PromptBlocked)}
  {
    var token := Lower(x);
    var m := TokenSurvivesTrim(a, x, b, token);
    var lower := Lower(Trim(a + x + b));
    if m > 0 {
      LowerCharKeepsClasses(a[|a| - 1]);
    }
    if m + |x| < |lower| {
      LowerCharKeepsClasses(b[0]);
    }
    assert WholeWordAt(lower, SqlKeywords[k], m);
    assert ContainsSqlKeyword(Trim(a + x + b));
    MatchedPromptIsRejected(a + x + b);
  }

  /** "../" or "..\" anywhere in a prompt rejects it. */
  lemma PromptWithTraversalIsRejected(a: string, b: string, k: nat)
    requires k < |TraversalTokens|
    ensures ValidatePrompt(a + TraversalTokens[k] + b) in {Invalid(PromptTooLong), Invalid(PromptBlocked)}
  {
    var x := TraversalTokens[k];
    var m := TrimKeepsInfix(a, x, b);
    assert ContainsTraversal(Trim(a + x + b));
    MatchedPromptIsRejected(a + x + b);
  }

  lemma TokenLengths()
    ensures forall j :: 0 <= j < |ScriptTokens| ==> |ScriptTokens[j]| >= 7
    ensures forall j :: 0 <= j < |CallTokens| ==> |CallTokens[j]| >= 5
    ensures forall j :: 0 <= j < |SqlKeywords| ==> |SqlKeywords[j]| >= 4
  {
  }

  /** No blocked pattern matches a text shorter than every token. */
  lemma ShortTextMatchesNoCodePattern(s: string)
    requires |s| < 4
    ensures !MatchesCodePattern(s)
  {
    TokenLengths();
  }

  /** The negative prompt has no traversal check: "../" on its own passes
      there while the positive prompt rejects it. */
  lemma TraversalOnlyRejectedInPrompt()
    ensures ValidateNegativePrompt("../") == Valid
    ensures ValidatePrompt("../") == Invalid(PromptBlocked)
  {
    var s := "../";
    ShortTextMatchesNoCodePattern(s);
    assert TrimStart(s) == s;
    assert Trim(s) == s;
    assert OccursAt(s, TraversalTokens[0], 0);
    MatchedPromptIsRejected(s);
  }

  /** A negative prompt is never trimmed: its length limit counts the
      surrounding whitespace too. */
  lemma NegativePromptLengthCountsWhitespace(prompt: string)
    requires |prompt| > MaxNegativePromptLength
    ensures ValidateNegativePrompt(prompt) == Invalid(NegativePromptTooLong)
  {
  }

  // ---------------------------------------------------------------------
  // sanitizePrompt

  predicate NoAngleBrackets(s: string) {
    forall i :: 0 <= i < |s| ==> s[i] != '<' && s[i] != '>'
  }

  /** s.replace(/[<>]/g, '') */
  function RemoveAngleBrackets(s: string): (r: string)
    ensures NoAngleBrackets(r)
    ensures forall c :: c in r ==> c in s
  {
    if s == [] then []
    else if s[0] == '<' || s[0] == '>' then RemoveAngleBrackets(s[1..])
    else [s[0]] + RemoveAngleBrackets(s[1..])
  }

  /** The protocol removal matches "javascript:" in any letter case. */
  const JavascriptProtocol := "javascript:"

  /** s.replace(/javascript:/gi, ''): every non-overlapping occurrence,
      searched from the left, in any case. */
  function RemoveJavascriptProtocol(s: string): (r: string)
    ensures forall c :: c in r ==> c in s
    decreases |s|
  {
    if |s| >= 11 && Lower(s[..11]) == JavascriptProtocol then RemoveJavascriptProtocol(s[11..])
    else if s == [] then []
    else [s[0]] + RemoveJavascriptProtocol(s[1..])
  }

  /** The length of the maximal run of \w characters at the start of s. */
  function WordRunLength(s: string): (n: nat)
    ensures n <= |s|
    ensures forall j :: 0 <= j < n ==> IsWordChar(s[j])
    ensures n < |s| ==> !IsWordChar(s[n])
  {
    if s != [] && IsWordChar(s[0]) then 1 + WordRunLength(s[1..]) else 0
  }

  /** /on\w+=/i matches the first n characters of s: "on" in either case,
      one or more word characters, and '='. */
  predicate HandlerAt(s: string, n: int) {
    && 4 <= n <= |s|
    && LowerChar(s[0]) == 'o' && LowerChar(s[1]) == 'n'
    && (forall j :: 2 <= j < n - 1 ==> IsWordChar(s[j]))
    && s[n - 1] == '='
  }

  /** A match at the start fixes the word run: it is the whole maximal run,
      because '=' is not a word character. */
  lemma HandlerRun(s: string, m: int)
    requires HandlerAt(s, m)
    ensures WordRunLength(s[2..]) == m - 3
  {
    var t := s[2..];
    var run := WordRunLength(t);
    assert t[m - 3] == s[m - 1];
    assert forall j :: 0 <= j < m - 3 ==> t[j] == s[j + 2];
  }

  /** The length of the match of /on\w+=/i at the start of s, or 0 when
      there is none. The greedy \w+ can only be followed by '=' at the end
      of its maximal run, so a match is unique. */
  function EventHandlerMatch(s: string): (n: nat)
    ensures n > 0 ==> HandlerAt(s, n)
    ensures forall m :: HandlerAt(s, m) ==> m == n
  {
    var run := if |s| >= 2 then WordRunLength(s[2..]) else 0;
    assert forall m :: HandlerAt(s, m) ==> |s| >= 2 && run == m - 3 by {
      forall m | HandlerAt(s, m)
        ensures |s| >= 2 && run == m - 3
      {
        HandlerRun(s, m);
      }
    }
    if |s| >= 2 && LowerChar(s[0]) == 'o' && LowerChar(s[1]) == 'n' then
      if run >= 1 && 2 + run < |s| && s[2 + run] == '=' then
        assert forall j :: 2 <= j < 2 + run ==> s[j] == s[2..][j - 2];
        3 + run
      else 0
    else 0
  }

  /** s.replace(/on\w+=/gi, '') */
  function RemoveEventHandlers(s: string): (r: string)
    ensures forall c :: c in r ==> c in s
    decreases |s|
  {
    if s == [] then []
    else
      var n := EventHandlerMatch(s);
      if n > 0 then RemoveEventHandlers(s[n..]) else [s[0]] + RemoveEventHandlers(s[1..])
  }

  /** s.substring(0, n) for n >= 0. */
  function Prefix(s: string, n: nat): (r: string)
    ensures r <= s && |r| == if |s| < n then |s| else n
  {
    if |s| <= n then s else s[..n]
  }

  /** sanitizePrompt: at most 2000 characters, no angle brackets, and
      nothing that was not in the input. */
  function SanitizePrompt(prompt: string): (r: string)
    ensures |r| <= MaxPromptLength
    ensures NoAngleBrackets(r)
    ensures forall c :: c in r ==> c in prompt
  {
    var trimmed := Trim(prompt);
    assert forall c :: c in trimmed ==> c in prompt by {
      TrimIsSlice(prompt);
    }
    var noBrackets := RemoveAngleBrackets(trimmed);
    var r := Prefix(RemoveEventHandlers(RemoveJavascriptProtocol(noBrackets)), MaxPromptLength);
    assert forall i :: 0 <= i < |r| ==> r[i] in noBrackets;
    r
  }

  /** Text without angle brackets passes through their removal unchanged. */
  lemma {:induction false} RemoveAngleBracketsKeepsClean(s: string)
    requires NoAngleBrackets(s)
    ensures RemoveAngleBrackets(s) == s
    decreases |s|
  {
    if s != [] {
      assert NoAngleBrackets(s[1..]) by {
        forall i | 0 <= i < |s[1..]| ensures s[1..][i] != '<' && s[1..][i] != '>' {
          assert s[1..][i] == s[i + 1];
        }
      }
      RemoveAngleBracketsKeepsClean(s[1..]);
      assert [s[0]] + s[1..] == s;
    }
  }

  /** Text in which "javascript:" occurs in no letter case passes through
      the protocol removal unchanged. */
  lemma {:induction false} RemoveJavascriptProtocolKeepsClean(s: string)
    requires !Contains(Lower(s), JavascriptProtocol)
    ensures RemoveJavascriptProtocol(s) == s
    decreases |s|
  {
    if s != [] {
      var l := Lower(s);
      if |s| >= 11 {
        assert Lower(s[..11]) == l[..11];
        assert !OccursAt(l, JavascriptProtocol, 0);
      }
      assert l[1..] == Lower(s[1..]);
      if Contains(Lower(s[1..]), JavascriptProtocol) {
        ContainsInTail(l, JavascriptProtocol);
      }
      RemoveJavascriptProtocolKeepsClean(s[1..]);
      assert [s[0]] + s[1..] == s;
    }
  }

  /** No event-handler attribute starts anywhere in s. */
  predicate NoEventHandler(s: string) {
    forall i :: 0 <= i < |s| ==> EventHandlerMatch(s[i..]) == 0
  }

  /** Text in which no event-handler attribute starts passes through their
      removal unchanged. */
  lemma {:induction false} RemoveEventHandlersKeepsClean(s: string)
    requires NoEventHandler(s)
    ensures RemoveEventHandlers(s) == s
    decreases |s|
  {
    if s != [] {
      assert s[0..] == s;
      assert NoEventHandler(s[1..]) by {
        forall i | 0 <= i < |s[1..]| ensures EventHandlerMatch(s[1..][i..]) == 0 {
          assert s[1..][i..] == s[i + 1..];
        }
      }
      RemoveEventHandlersKeepsClean(s[1..]);
      assert [s[0]] + s[1..] == s;
    }
  }

  /** A prompt that trims to at most 2000 characters free of angle
      brackets, "javascript:" and event-handler attributes is sanitised to
      its trimmed text: the sanitiser removes nothing else. */
  lemma SanitizeKeepsCleanPrompt(prompt: string)
    requires |Trim(prompt)| <= MaxPromptLength
    requires NoAngleBrackets(Trim(prompt))
    requires !Contains(Lower(Trim(prompt)), JavascriptProtocol)
    requires NoEventHandler(Trim(prompt))
    ensures SanitizePrompt(prompt) == Trim(prompt)
  {
    var t := Trim(prompt);
    RemoveAngleBracketsKeepsClean(t);
    RemoveJavascriptProtocolKeepsClean(t);
    RemoveEventHandlersKeepsClean(t);
  }

  /** Each removal makes one pass from the left, so a removal can join the
      text around it into a new occurrence: a nested "javascript:"
      survives sanitising. */
  lemma NestedProtocolSurvives(s: string)
    requires s == "javajavascript:script:"
    ensures RemoveJavascriptProtocol(s) == JavascriptProtocol
  {
    var inner := s[4..];
    assert inner == "javascript:script:";
    InnerProtocolRemoved(inner);
    assert inner[11..] == s[15..];
    ProtocolKeepsFirst(s[3..], inner);
    ProtocolKeepsFirst(s[2..], s[3..]);
    ProtocolKeepsFirst(s[1..], s[2..]);
    ProtocolKeepsFirst(s, s[1..]);
    SpelledAroundInner(s);
  }

  /** Hence a prompt can still hold "javascript:" after sanitising. */
  lemma SanitizedPromptCanHoldProtocol(s: string)
    requires s == "javajavascript:script:"
    ensures SanitizePrompt(s) == JavascriptProtocol
  {
    NestedPromptIsClean(s);
    NestedProtocolSurvives(s);
    ProtocolHoldsNoHandler(JavascriptProtocol);
  }

  lemma NestedPromptIsClean(s: string)
    requires s == "javajavascript:script:"
    ensures Trim(s) == s && RemoveAngleBrackets(s) == s
  {
    NestedPromptTrims(s);
    NestedPromptHasNoBrackets(s);
    RemoveAngleBracketsKeepsClean(s);
  }

  lemma NestedPromptHasNoBrackets(s: string)
    requires s == "javajavascript:script:"
    ensures NoAngleBrackets(s)
  {
    assert forall i :: 0 <= i < |s| ==> s[i] in "javscript:";
  }

  lemma NestedPromptTrims(s: string)
    requires s == "javajavascript:script:"
    ensures Trim(s) == s
  {
    assert s[0] == 'j' && s[|s| - 1] == ':';
    TrimOfPadded("", s, "");
    assert "" + s + "" == s;
  }

  lemma ProtocolHoldsNoHandler(t: string)
    requires t == JavascriptProtocol
    ensures RemoveEventHandlers(t) == t
  {
    assert forall i :: 0 <= i < |t| ==> t[i] in "javscript:";
    NoHandlerWithoutOn(t);
  }

  lemma SpelledAroundInner(s: string)
    requires s == "javajavascript:script:"
    ensures [s[0]] + ([s[1]] + ([s[2]] + ([s[3]] + s[15..]))) == JavascriptProtocol
  {
  }

  lemma InnerProtocolRemoved(inner: string)
    requires inner == "javascript:script:"
    ensures RemoveJavascriptProtocol(inner) == inner[11..]
  {
    assert Lower(inner[..11]) == JavascriptProtocol;
    assert inner[11..] == "script:";
    NoProtocolInShortText("script:");
  }

  /** Where no "javascript:" starts, the first character is kept. */
  lemma ProtocolKeepsFirst(s: string, tail: string)
    requires |s| >= 11 && (LowerChar(s[0]) != 'j' || s[10] != ':')
    requires s[1..] == tail
    ensures RemoveJavascriptProtocol(s) == [s[0]] + RemoveJavascriptProtocol(tail)
  {
    assert Lower(s[..11])[0] == LowerChar(s[0]);
    assert Lower(s[..11])[10] == LowerChar(s[10]);
  }

  /** The same holds of event handlers: removing the inner handler joins
      "o" and "nclick=" into a new one, which stays. */
  lemma NestedHandlerSurvives(s: string)
    requires s == "oonclick=nclick="
    ensures RemoveEventHandlers(s) == "onclick="
    ensures EventHandlerMatch(s[1..9]) == 8
  {
    OuterCharKept(s);
    InnerHandlerRemoved(s[1..]);
    assert s[1..][8..] == s[9..];
    assert [s[0]] + s[9..] == "onclick=";
    assert s[1..9][..8] == "onclick=";
    HandlerOfOnclick(s[1..9]);
  }

  lemma OuterCharKept(s: string)
    requires s == "oonclick=nclick="
    ensures RemoveEventHandlers(s) == [s[0]] + RemoveEventHandlers(s[1..])
  {
    assert LowerChar(s[1]) == 'o';
    assert EventHandlerMatch(s) == 0;
  }

  lemma InnerHandlerRemoved(t: string)
    requires t == "onclick=nclick="
    ensures RemoveEventHandlers(t) == t[8..]
  {
    assert t[..8] == "onclick=";
    HandlerOfOnclick(t);
    assert forall i :: 8 <= i < |t| ==> t[i] in "nclik=";
    NoHandlerWithoutOn(t[8..]);
  }

  lemma HandlerOfOnclick(t: string)
    requires |t| >= 8 && t[..8] == "onclick="
    ensures EventHandlerMatch(t) == 8
  {
    assert forall j :: 2 <= j < 7 ==> t[j] == "onclick="[j];
    assert HandlerAt(t, 8);
  }

  lemma {:induction false} NoProtocolInShortText(s: string)
    requires |s| < 11
    ensures RemoveJavascriptProtocol(s) == s
    decreases |s|
  {
    if s != [] {
      NoProtocolInShortText(s[1..]);
      assert [s[0]] + s[1..] == s;
    }
  }

  /** A text without an 'o' or 'O' contains no event-handler attribute. */
  lemma {:induction false} NoHandlerWithoutOn(s: string)
    requires forall i :: 0 <= i < |s| ==> LowerChar(s[i]) != 'o'
    ensures RemoveEventHandlers(s) == s
    decreases |s|
  {
    if s != [] {
      assert !HandlerAt(s, EventHandlerMatch(s));
      NoHandlerWithoutOn(s[1..]);
      assert [s[0]] + s[1..] == s;
    }
  }

  lemma TrimIsSlice(s: string)
    ensures forall c :: c in Trim(s) ==> c in s
  {
    if Trim(s) != [] {
      var i :| 0 <= i < |Trim(s)|;
      assert !IsSpace(Trim(s)[0]);
      var j := |s| - |TrimStart(s)|;
      TrimStartIsSuffix(s);
      TrimWindow(s, j);
      forall c | c in Trim(s) ensures c in s {
        var n :| 0 <= n < |Trim(s)| && Trim(s)[n] == c;
        assert s[j + n] == c;
      }
    }
  }

  // ---------------------------------------------------------------------
  // validateFileUpload

  datatype UploadedFile = UploadedFile(name: string, size: nat, mimeType: string)

  const AllowedImageTypes: seq<string> := ["image/jpeg", "image/jpg", "image/png", "image/webp"]

  /** The `mimeToExt` table; "image/jpg" has no entry. */
  function ExtensionsFor(mimeType: string): Option<seq<string>> {
    if mimeType == "image/jpeg" then Some(["jpg", "jpeg"])
    else if mimeType == "image/png" then Some(["png"])
    else if mimeType == "image/webp" then Some(["webp"])
    else None
  }

  /** The lower-cased last dot-separated segment of the file name. */
  function Extension(name: string): string {
    Lower(AfterLast(name, '.'))
  }

  /** The size in MiB as toFixed(2) prints it. */
  function SizeInMegabytes(size: nat): string {
    ToFixed2(size, 1024 * 1024)
  }

  /** validateFileUpload */
  function ValidateFileUpload(file: Option<UploadedFile>): (r: ValidationResult)
    ensures r.Valid? ==> file.Some? && file.value.size <= MaxFileSize && file.value.mimeType in AllowedImageTypes
    ensures r.Valid? ==> Extension(file.value.name) != ""
  {
    match file
    case None => Invalid("No file provided")
    case Some(f) =>
      if f.size > MaxFileSize then
        Invalid("File too large (" + SizeInMegabytes(f.size) + "MB). Maximum size is 10MB")
      else if f.mimeType !in AllowedImageTypes then
        Invalid("Invalid file type: " + f.mimeType + ". Only JPEG, PNG, and WebP are allowed")
      else
        var ext := Extension(f.name);
        var expected := ExtensionsFor(f.mimeType);
        if expected.None? || ext == "" || ext !in expected.value then
          Invalid("File extension does not match file type")
        else Valid
  }

  /** A file passes exactly when it is at most 10 MiB, of one of the three
      types that have an extension list, and named with one of them. */
  lemma ValidFileIff(f: UploadedFile)
    ensures ValidateFileUpload(Some(f)).Valid? <==>
      && f.size <= MaxFileSize
      && ExtensionsFor(f.mimeType).Some?
      && Extension(f.name) in ExtensionsFor(f.mimeType).value
  {
    TypesWithExtensionsAreAllowed(f.mimeType);
    assert forall m :: ExtensionsFor(m).Some? ==> "" !in ExtensionsFor(m).value;
  }

  lemma TypesWithExtensionsAreAllowed(mimeType: string)
    ensures ExtensionsFor(mimeType).Some? ==> mimeType in AllowedImageTypes
  {
  }

  /** "image/jpg" is on the allowed list but has no extension list, so such
      a file is always rejected. */
  lemma ImageJpgIsAlwaysRejected(f: UploadedFile)
    requires f.mimeType == "image/jpg"
    ensures ValidateFileUpload(Some(f)).Invalid?
    ensures f.size <= MaxFileSize ==> ValidateFileUpload(Some(f)) == Invalid("File extension does not match file type")
  {
  }

  // ---------------------------------------------------------------------
  // validateEmail

  predicate NoSpaceOrAt(s: string) {
    forall i :: 0 <= i < |s| ==> !IsSpace(s[i]) && s[i] != '@'
  }

  /** The domain part of /^[^\s@]+@[^\s@]+\.[^\s@]+$/: no whitespace, no '@',
      and a '.' with at least one character on each side. */
  predicate DomainShape(d: string) {
    NoSpaceOrAt(d) && exists k :: 0 < k < |d| - 1 && d[k] == '.'
  }

  /** /^[^\s@]+@[^\s@]+\.[^\s@]+$/ */
  predicate EmailShape(email: string) {
    exists i :: 0 < i < |email| && email[i] == '@' && NoSpaceOrAt(email[..i]) && DomainShape(email[i + 1..])
  }

  /** validateEmail: the shape is checked before the length. */
  function ValidateEmail(email: string): (r: ValidationResult)
    ensures email == "" ==> r == Invalid("Email is required")
    ensures r.Valid? ==> |email| <= MaxEmailLength
  {
    if email == "" then Invalid("Email is required")
    else if !EmailShape(email) then Invalid("Invalid email format")
    else if |email| > MaxEmailLength then Invalid("Email too long")
    else Valid
  }

  lemma ValidEmailIff(email: string)
    ensures ValidateEmail(email).Valid? <==> EmailShape(email) && |email| <= MaxEmailLength
    ensures !EmailShape(email) && email != "" ==> ValidateEmail(email) == Invalid("Invalid email format")
  {
  }

  /** An address of the form local@name.tld with whitespace-free, '@'-free
      parts has the e-mail shape. */
  lemma EmailShapeOfParts(local: string, name: string, tld: string)
    requires local != [] && name != [] && tld != []
    requires NoSpaceOrAt(local) && NoSpaceOrAt(name) && NoSpaceOrAt(tld)
    ensures EmailShape(local + "@" + name + "." + tld)
  {
    var e := local + "@" + name + "." + tld;
    var i := |local|;
    assert e[i] == '@';
    assert e[..i] == local;
    var d := e[i + 1..];
    assert d == name + "." + tld;
    assert d[|name|] == '.';
    assert NoSpaceOrAt(d) by {
      forall j | 0 <= j < |d| ensures !IsSpace(d[j]) && d[j] != '@' {
        if j < |name| {
          assert d[j] == name[j];
        } else if j > |name| {
          assert d[j] == tld[j - |name| - 1];
        }
      }
    }
  }

  /** An address with two '@' never has the e-mail shape. */
  lemma TwoAtSignsAreNotAnEmail(email: string, p: nat, q: nat)
    requires p < q < |email| && email[p] == '@' && email[q] == '@'
    ensures !EmailShape(email)
  {
    forall i | 0 <= i < |email|
      ensures !(NoSpaceOrAt(email[..i]) && DomainShape(email[i + 1..]))
    {
      if i < q {
        assert email[i + 1..][q - i - 1] == '@';
      } else {
        assert email[..i][p] == '@';
      }
    }
  }

  // ---------------------------------------------------------------------
  // validatePassword

  predicate HasLetter(s: string) {
    exists i :: 0 <= i < |s| && IsAsciiLetter(s[i])
  }

  predicate HasDigit(s: string) {
    exists i :: 0 <= i < |s| && IsDigit(s[i])
  }

  /** validatePassword */
  function ValidatePassword(password: string): (r: ValidationResult)
    ensures r.Valid? ==> MinPasswordLength <= |password| <= MaxPasswordLength && HasDigit(password)
  {
    if password == "" then Invalid("Password is required")
    else if |password| < MinPasswordLength then Invalid("Password must be at least 8 characters")
    else if |password| > MaxPasswordLength then Invalid("Password too long (max 128 characters)")
    else if !HasLetter(password) || !HasDigit(password) then
      Invalid("Password must contain at least one letter and one number")
    else Valid
  }

  lemma ValidPasswordIff(password: string)
    ensures ValidatePassword(password).Valid? <==>
      MinPasswordLength <= |password| <= MaxPasswordLength && HasLetter(password) && HasDigit(password)
  {
  }
}
