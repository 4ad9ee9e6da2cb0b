/**
 Redacting command lines before they are logged (internal/cli/logging/sanitizer.go): a
 transducer over the argument list with one argument of look-ahead, and a rewriting of
 key=value lists for --set.
 */
module Sanitizer {
  import opened Results
  import opened Strings

  const MARK := "***"
  const KEY_MARKERS: seq<string> := ["password", "passphrase", "secret", "token", "apikey", "privatekey"]
  const FLAG_MARKERS: seq<string> := ["password", "passphrase", "token", "secret", "credential"]

  predicate HasMarker(markers: seq<string>, text: string) {
    exists i :: 0 <= i < |markers| && Contains(Lower(text), markers[i])
  }

  predicate IsSensitiveKey(text: string) {
    HasMarker(KEY_MARKERS, text)
  }

  predicate IsSensitiveFlag(flag: string) {
    HasMarker(FLAG_MARKERS, flag)
  }

  // ---------- --set expressions ----------

  /** One pair of a --set expression. */
  function SanitizePair(pair: string): string {
    var eq := IndexOf(pair, '=');
    if eq == |pair| then pair
    else
      var key, value := pair[..eq], pair[eq + 1..];
      if IsSensitiveKey(key) || IsSensitiveKey(value) then key + "=" + MARK else key + "=" + value
  }

  function SanitizePairs(pairs: seq<string>): (r: seq<string>)
    ensures |r| == |pairs|
    ensures forall i :: 0 <= i < |pairs| ==> r[i] == SanitizePair(pairs[i])
  {
    seq(|pairs|, i requires 0 <= i < |pairs| => SanitizePair(pairs[i]))
  }

  function SanitizeSet(expression: string): string {
    Join(SanitizePairs(Split(expression, ',')), ",")
  }

  /** sanitizeSetExpressions */
  method SanitizeSetExpressions(expression: string) returns (r: string)
    ensures r == SanitizeSet(expression)
  {
    hide HasMarker, IndexOf, Split;
    var original := Split(expression, ',');
    var pairs := original;
    for i := 0 to |pairs|
      invariant |pairs| == |original|
      invariant forall j :: 0 <= j < i ==> pairs[j] == SanitizePair(original[j])
      invariant forall j :: i <= j < |pairs| ==> pairs[j] == original[j]
    {
      var pair := pairs[i];
      var eq := IndexOf(pair, '=');
      if eq == |pair| {
        continue;
      }
      var key, value := pair[..eq], pair[eq + 1..];
      if IsSensitiveKey(key) || IsSensitiveKey(value) {
        pairs := pairs[i := key + "=" + MARK];
        continue;
      }
      pairs := pairs[i := key + "=" + value];
    }
    assert pairs == SanitizePairs(original);
    r := Join(pairs, ",");
  }

  // ---------- the transducer ----------

  /** What is still to be done to the next argument. */
  datatype Pending = Nothing | SetValue | Redact

  /** sanitizeInlineAssignment; None when the argument is not handled here. */
  function SanitizeInline(arg: string, lower: string): Option<string> {
    var eq := IndexOf(arg, '=');
    if eq == |arg| || eq == 0 then None
    else
      var flag, value := arg[..eq], arg[eq + 1..];
      if IsSensitiveFlag(flag) then Some(flag + "=" + MARK)
      else if HasPrefix(lower, "--") && IsSensitiveKey(value) then Some(flag + "=" + MARK)
      else if HasPrefix(lower, "--set") then Some(flag + "=" + SanitizeSet(value))
      else None
  }

  /** sanitizeCommandArg */
  function SanitizeArg(arg: string): (string, Pending) {
    var lower := Lower(arg);
    if lower == "--set" || lower == "--set-string" then (arg, SetValue)
    else
      match SanitizeInline(arg, lower)
      case Some(s) => (s, Nothing)
      case None => if IsSensitiveFlag(arg) then (arg, Redact) else (arg, Nothing)
  }

  function Transform(pending: Pending, arg: string): string
    requires pending != Nothing
  {
    if pending == Redact then MARK else SanitizeSet(arg)
  }

  /** The sanitized arguments; a transform left over at the end adds a placeholder. */
  function SanitizeArgs(args: seq<string>, pending: Pending): seq<string> {
    if args == [] then if pending == Nothing then [] else [MARK]
    else if pending != Nothing then [Transform(pending, args[0])] + SanitizeArgs(args[1..], Nothing)
    else
      var (cleaned, next) := SanitizeArg(args[0]);
      [cleaned] + SanitizeArgs(args[1..], next)
  }

  lemma OneMoreArg(args: seq<string>, i: nat, pending: Pending, done: seq<string>)
    requires i < |args|
    ensures var rest := SanitizeArgs(args[i..], pending);
            if pending != Nothing then
              done + rest == done + [Transform(pending, args[i])] + SanitizeArgs(args[i + 1..], Nothing)
            else
              done + rest == done + [SanitizeArg(args[i]).0] + SanitizeArgs(args[i + 1..], SanitizeArg(args[i]).1)
  {
    hide SanitizeArg, Transform;
    assert args[i..][1..] == args[i + 1..];
  }

  lemma NoMoreArgs(args: seq<string>, pending: Pending)
    ensures SanitizeArgs(args[|args|..], pending) == if pending == Nothing then [] else [MARK]
  {
  }

  method SanitizeCommand(args: seq<string>) returns (r: string)
    ensures r == Join(SanitizeArgs(args, Nothing), " ")
  {
    if |args| == 0 {
      return "";
    }
    var sanitized: seq<string> := [];
    var nextTransform := Nothing;
    hide SanitizeArg, Transform, SanitizeArgs;
    for i := 0 to |args|
      invariant SanitizeArgs(args, Nothing) == sanitized + SanitizeArgs(args[i..], nextTransform)
    {
      OneMoreArg(args, i, nextTransform, sanitized);
      if nextTransform != Nothing {
        sanitized := sanitized + [Transform(nextTransform, args[i])];
        nextTransform := Nothing;
        continue;
      }
      var (cleaned, followUp) := SanitizeArg(args[i]);
      sanitized := sanitized + [cleaned];
      nextTransform := followUp;
    }
    NoMoreArgs(args, nextTransform);
    if nextTransform != Nothing {
      sanitized := sanitized + [MARK];
    }
    assert sanitized == SanitizeArgs(args, Nothing);
    r := Join(sanitized, " ");
  }

  // ---------- markers ----------

  /** Markers are words of at least five letters without '=' and ','. */
  predicate AreWords(markers: seq<string>) {
    forall i :: 0 <= i < |markers| ==> |markers[i]| >= 5 && '=' !in markers[i] && ',' !in markers[i]
  }

  lemma MarkersAreWords()
    ensures AreWords(KEY_MARKERS) && AreWords(FLAG_MARKERS)
  {
  }

  lemma ShortHasNoMarker(markers: seq<string>, text: string)
    requires AreWords(markers) && |text| < 5
    ensures !HasMarker(markers, text)
  {
  }

  lemma MarkerAcross(markers: seq<string>, a: string, c: char, b: string)
    requires AreWords(markers) && (c == '=' || c == ',')
    ensures HasMarker(markers, a + [c] + b) ==> HasMarker(markers, a) || HasMarker(markers, b)
  {
    if i :| 0 <= i < |markers| && Contains(Lower(a + [c] + b), markers[i]) {
      LowerConcat(a + [c], b);
      LowerConcat(a, [c]);
      assert Lower([c]) == [c];
      ContainsAcross(Lower(a), c, Lower(b), markers[i]);
    }
  }

  lemma MarkerWithin(markers: seq<string>, a: string, s: string, b: string)
    requires HasMarker(markers, s)
    ensures HasMarker(markers, a + s + b)
  {
    var i :| 0 <= i < |markers| && Contains(Lower(s), markers[i]);
    LowerConcat(a + s, b);
    LowerConcat(a, s);
    ContainsWithin(Lower(a), Lower(s), Lower(b), markers[i]);
  }

  lemma MarkIsHarmless()
    ensures !IsSensitiveKey(MARK) && !IsSensitiveFlag(MARK)
  {
    MarkersAreWords();
    ShortHasNoMarker(KEY_MARKERS, MARK);
    ShortHasNoMarker(FLAG_MARKERS, MARK);
  }

  // ---------- what is clean already ----------

  /** A word, '=' and a rest split at exactly that '='. */
  lemma AssignmentParts(key: string, value: string)
    requires '=' !in key
    ensures IndexOf(key + "=" + value, '=') == |key|
    ensures (key + "=" + value)[..|key|] == key && (key + "=" + value)[|key| + 1..] == value
  {
    SplitFirst(key, '=', value);
  }

  lemma SplitAround(s: string, i: nat)
    requires i < |s|
    ensures s == s[..i] + [s[i]] + s[i + 1..]
  {
  }

  lemma PartsOfAssignment(s: string)
    requires IndexOf(s, '=') < |s|
    ensures s == s[..IndexOf(s, '=')] + "=" + s[IndexOf(s, '=') + 1..]
  {
    SplitAround(s, IndexOf(s, '='));
  }

  lemma KeyLacksEquals(s: string)
    ensures '=' !in s[..IndexOf(s, '=')]
  {
    hide IndexOf;
  }

  predicate CleanPair(pair: string) {
    var eq := IndexOf(pair, '=');
    eq < |pair| ==> !IsSensitiveKey(pair[eq + 1..]) && (IsSensitiveKey(pair[..eq]) ==> pair[eq + 1..] == MARK)
  }

  /** No pair shows a value under a sensitive key, or a value that is itself sensitive. */
  predicate CleanSet(expression: string) {
    forall i :: 0 <= i < |Split(expression, ',')| ==> CleanPair(Split(expression, ',')[i])
  }

  lemma PairFixedIffClean(pair: string)
    ensures CleanPair(SanitizePair(pair))
    ensures SanitizePair(pair) == pair <==> CleanPair(pair)
    ensures ',' !in pair ==> ',' !in SanitizePair(pair)
  {
    hide HasMarker;
    MarkIsHarmless();
    if IndexOf(pair, '=') < |pair| {
      PartsOfAssignment(pair);
      KeyLacksEquals(pair);
      var key := pair[..IndexOf(pair, '=')];
      AssignmentParts(key, MARK);
    }
  }

  /** Rewriting a --set expression leaves it alone exactly when it is clean, and its result is clean. */
  lemma SetFixedIffClean(expression: string)
    ensures CleanSet(SanitizeSet(expression))
    ensures SanitizeSet(expression) == expression <==> CleanSet(expression)
  {
    hide SanitizePair, CleanPair;
    var pairs := Split(expression, ',');
    var out := SanitizePairs(pairs);
    SplitPartsLackSeparator(expression, ',');
    forall i | 0 <= i < |pairs|
      ensures ',' !in out[i] && CleanPair(out[i]) && (out[i] == pairs[i] <==> CleanPair(pairs[i]))
    {
      assert pairs[i] in pairs;
      PairFixedIffClean(pairs[i]);
    }
    SplitOfJoin(out, ',');
    JoinOfSplit(expression, ',');
    if CleanSet(expression) {
      assert out == pairs;
    }
  }

  lemma HarmlessInside(a: string, s: string, b: string)
    requires !IsSensitiveKey(a + s + b)
    ensures !IsSensitiveKey(s)
  {
    hide HasMarker;
    if IsSensitiveKey(s) {
      MarkerWithin(KEY_MARKERS, a, s, b);
    }
  }

  lemma HarmlessPair(pair: string)
    requires !IsSensitiveKey(pair)
    ensures CleanPair(pair)
  {
    hide HasMarker, IndexOf;
    var eq := IndexOf(pair, '=');
    if eq < |pair| {
      assert pair == "" + pair[..eq] + pair[eq..];
      HarmlessInside("", pair[..eq], pair[eq..]);
      assert pair == pair[..eq + 1] + pair[eq + 1..] + "";
      HarmlessInside(pair[..eq + 1], pair[eq + 1..], "");
    }
  }

  lemma HarmlessPart(value: string, i: nat)
    requires !IsSensitiveKey(value) && i < |Split(value, ',')|
    ensures !IsSensitiveKey(Split(value, ',')[i])
  {
    hide HasMarker;
    if IsSensitiveKey(Split(value, ',')[i]) {
      PartHasNoMore(KEY_MARKERS, value, ',', i);
    }
  }

  /** A value without any marker passes the --set rewriting unchanged. */
  lemma HarmlessSet(value: string)
    requires !IsSensitiveKey(value)
    ensures SanitizeSet(value) == value
  {
    hide IsSensitiveKey, CleanPair, SanitizeSet, Split;
    forall i | 0 <= i < |Split(value, ',')|
      ensures CleanPair(Split(value, ',')[i])
    {
      HarmlessPart(value, i);
      HarmlessPair(Split(value, ',')[i]);
    }
    SetFixedIffClean(value);
  }

  lemma {:induction false} PartHasNoMore(markers: seq<string>, s: string, sep: char, i: nat)
    requires i < |Split(s, sep)| && HasMarker(markers, Split(s, sep)[i])
    ensures HasMarker(markers, s)
    decreases |s|
  {
    hide HasMarker;
    var k := IndexOf(s, sep);
    if k < |s| {
      if i == 0 {
        MarkerWithin(markers, "", s[..k], s[k..]);
        assert "" + s[..k] + s[k..] == s;
      } else {
        PartHasNoMore(markers, s[k + 1..], sep, i - 1);
        MarkerWithin(markers, s[..k + 1], s[k + 1..], "");
        assert s[..k + 1] + s[k + 1..] + "" == s;
      }
    }
  }

  // ---------- what is clean already, argument by argument ----------

  /** The test on the whole argument sees only what stands before the '='. */
  lemma PrefixBeforeEquals(prefix: string, flag: string, value: string)
    requires '=' !in prefix
    ensures HasPrefix(Lower(flag + "=" + value), prefix) <==> HasPrefix(Lower(flag), prefix)
  {
    LowerConcat(flag + "=", value);
    LowerConcat(flag, "=");
    assert Lower("=") == "=";
    var whole := Lower(flag) + "=" + Lower(value);
    assert whole[|flag|] == '=';
  }

  predicate IsSetFlag(arg: string) {
    Lower(arg) == "--set" || Lower(arg) == "--set-string"
  }

  /** The argument is flag=value with a flag that is not empty. */
  predicate IsAssignment(arg: string) {
    0 < IndexOf(arg, '=') < |arg|
  }

  function FlagOf(arg: string): string
    requires IsAssignment(arg)
  {
    arg[..IndexOf(arg, '=')]
  }

  function ValueOf(arg: string): string
    requires IsAssignment(arg)
  {
    arg[IndexOf(arg, '=') + 1..]
  }

  /** Nothing in the argument itself needs redacting. */
  predicate CleanArg(arg: string) {
    IsAssignment(arg) ==>
      && (IsSensitiveFlag(FlagOf(arg)) ==> ValueOf(arg) == MARK)
      && (HasPrefix(Lower(FlagOf(arg)), "--") ==> !IsSensitiveKey(ValueOf(arg)))
  }

  lemma AssignmentIsNoSetFlag(arg: string)
    requires '=' in arg
    ensures !IsSetFlag(arg)
  {
    var i :| 0 <= i < |arg| && arg[i] == '=';
    assert Lower(arg)[i] == '=';
  }

  /** sanitizeInlineAssignment with its last arm read for what it is: the identity. */
  lemma InlineReads(arg: string)
    requires IsAssignment(arg)
    ensures SanitizeInline(arg, Lower(arg)) ==
            if IsSensitiveFlag(FlagOf(arg)) || (HasPrefix(Lower(FlagOf(arg)), "--") && IsSensitiveKey(ValueOf(arg)))
            then Some(FlagOf(arg) + "=" + MARK)
            else if HasPrefix(Lower(FlagOf(arg)), "--set") then Some(arg)
            else None
  {
    hide HasMarker, SanitizeSet, IndexOf, Lower;
    PartsOfAssignment(arg);
    PrefixBeforeEquals("--", FlagOf(arg), ValueOf(arg));
    PrefixBeforeEquals("--set", FlagOf(arg), ValueOf(arg));
    assert HasPrefix(Lower(FlagOf(arg)), "--set") ==> HasPrefix(Lower(FlagOf(arg)), "--") by {
      assert "--" <= "--set";
    }
    if !IsSensitiveKey(ValueOf(arg)) {
      HarmlessSet(ValueOf(arg));
    }
  }

  /** One argument: the result is clean, it is the argument itself exactly when that was clean
      already, and running it again gives the same result and the same follow-up. */
  lemma ArgFixedIffClean(arg: string)
    ensures var (cleaned, next) := SanitizeArg(arg);
            && CleanArg(cleaned)
            && (cleaned == arg <==> CleanArg(arg))
            && SanitizeArg(cleaned) == (cleaned, next)
  {
    hide HasMarker, SanitizeInline, SanitizeSet, IndexOf;
    if IsAssignment(arg) {
      AssignmentArg(arg);
    } else {
      assert SanitizeInline(arg, Lower(arg)) == None by { NotInline(arg); }
    }
  }

  lemma NotInline(arg: string)
    requires !IsAssignment(arg)
    ensures SanitizeInline(arg, Lower(arg)) == None
  {
  }

  lemma HasEquals(arg: string)
    requires IsAssignment(arg)
    ensures '=' in arg
  {
    assert arg[IndexOf(arg, '=')] == '=';
  }

  lemma AssignmentArg(arg: string)
    requires IsAssignment(arg)
    ensures var (cleaned, next) := SanitizeArg(arg);
            && CleanArg(cleaned)
            && (cleaned == arg <==> CleanArg(arg))
            && SanitizeArg(cleaned) == (cleaned, next)
  {
    hide HasMarker, SanitizeInline, SanitizeSet, IndexOf, Lower, HasPrefix;
    HasEquals(arg);
    AssignmentIsNoSetFlag(arg);
    InlineReads(arg);
    PartsOfAssignment(arg);
    if IsSensitiveFlag(FlagOf(arg)) || (HasPrefix(Lower(FlagOf(arg)), "--") && IsSensitiveKey(ValueOf(arg))) {
      MarkedArg(arg);
    }
  }

  /** flag=*** stays flag=*** and asks for nothing further. */
  lemma MarkedArg(arg: string)
    requires IsAssignment(arg)
    ensures var out := FlagOf(arg) + "=" + MARK;
            && IsAssignment(out) && FlagOf(out) == FlagOf(arg) && ValueOf(out) == MARK
            && CleanArg(out) && SanitizeArg(out) == (out, Nothing)
  {
    var out, flag := FlagOf(arg) + "=" + MARK, FlagOf(arg);
    KeyLacksEquals(arg);
    AssignmentParts(flag, MARK);
    hide HasMarker, SanitizeInline, SanitizeSet, IndexOf, Lower, HasPrefix;
    HasEquals(out);
    AssignmentIsNoSetFlag(out);
    InlineReads(out);
    MarkIsHarmless();
    MarkersAreWords();
    MarkerAcross(FLAG_MARKERS, flag, '=', MARK);
    assert out == flag + ['='] + MARK;
  }

  /** A value that is not shown after this flag. */
  predicate HiddenAfter(flag: string, value: string) {
    IsSensitiveFlag(flag) || (HasPrefix(Lower(flag), "--") && (IsSensitiveKey(value) || value == MARK))
  }

  lemma PartsMatch(arg: string)
    requires IsAssignment(arg)
    ensures arg == FlagOf(arg) + "=" + ValueOf(arg)
  {
    PartsOfAssignment(arg);
  }

  /** What an inline assignment shows. */
  lemma AssignmentShows(arg: string)
    requires IsAssignment(arg)
    ensures SanitizeArg(arg).0 == FlagOf(arg) + "=" + (if HiddenAfter(FlagOf(arg), ValueOf(arg)) then MARK else ValueOf(arg))
    ensures IsAssignment(SanitizeArg(arg).0)
    ensures '=' !in FlagOf(arg)
  {
    hide HasMarker, SanitizeInline, SanitizeSet, IndexOf, Lower, HasPrefix;
    HasEquals(arg);
    AssignmentIsNoSetFlag(arg);
    InlineReads(arg);
    PartsOfAssignment(arg);
    MarkedArg(arg);
    KeyLacksEquals(arg);
  }

  lemma OtherArgsAreKept(arg: string)
    requires !IsAssignment(arg)
    ensures SanitizeArg(arg).0 == arg
  {
    hide HasMarker, SanitizeInline;
    NotInline(arg);
  }

  /**
   What an argument asks of the next one. An inline assignment that hides its value, or
   belongs to the --set family, asks nothing; any other argument with a flag marker anywhere
   in it, its value included, has the next argument redacted.
   */
  function AsksNext(arg: string): Pending {
    if IsSetFlag(arg) then SetValue
    else if IsAssignment(arg) && (HiddenAfter(FlagOf(arg), ValueOf(arg)) || HasPrefix(Lower(FlagOf(arg)), "--set")) then Nothing
    else if IsSensitiveFlag(arg) then Redact
    else Nothing
  }

  lemma FollowUpIs(arg: string)
    ensures SanitizeArg(arg).1 == AsksNext(arg)
  {
    hide HasMarker, SanitizeInline, SanitizeSet, IndexOf, Lower, HasPrefix;
    if IsAssignment(arg) {
      HasEquals(arg);
      AssignmentIsNoSetFlag(arg);
      InlineReads(arg);
      PartsMatch(arg);
      if ValueOf(arg) == MARK {
        MarkIsHarmless();
        MarkersAreWords();
        MarkerAcross(FLAG_MARKERS, FlagOf(arg), '=', MARK);
      }
    } else {
      NotInline(arg);
    }
  }

  // ---------- main results ----------

  /** Read left to right with what each argument asks of the next, nothing is left to redact. */
  predicate Sanitized(args: seq<string>, pending: Pending) {
    if args == [] then pending == Nothing
    else
      match pending
      case Redact => args[0] == MARK && Sanitized(args[1..], Nothing)
      case SetValue => CleanSet(args[0]) && Sanitized(args[1..], Nothing)
      case Nothing => CleanArg(args[0]) && Sanitized(args[1..], AsksNext(args[0]))
  }

  /**
   For every argument list the result has nothing left to redact, and a list is left exactly
   as it is when and only when that already holds of it.
   */
  lemma {:induction false} ResultIsSanitized(args: seq<string>, pending: Pending)
    ensures Sanitized(SanitizeArgs(args, pending), pending)
    ensures SanitizeArgs(args, pending) == args <==> Sanitized(args, pending)
  {
    hide CleanSet, SanitizeSet, CleanArg, SanitizeArg, AsksNext;
    SetFixedIffClean(MARK);
    MarkIsHarmless();
    HarmlessSet(MARK);
    if args != [] {
      var out := SanitizeArgs(args, pending);
      if pending == Nothing {
        ArgFixedIffClean(args[0]);
        FollowUpIs(args[0]);
        FollowUpIs(SanitizeArg(args[0]).0);
        ResultIsSanitized(args[1..], SanitizeArg(args[0]).1);
        assert out[1..] == SanitizeArgs(args[1..], SanitizeArg(args[0]).1);
      } else {
        SetFixedIffClean(args[0]);
        ResultIsSanitized(args[1..], Nothing);
        assert out[1..] == SanitizeArgs(args[1..], Nothing);
      }
      assert out == args <==> out[0] == args[0] && out[1..] == args[1..];
    } else if pending != Nothing {
      assert [MARK][1..] == [];
    }
  }

  /** Sanitizing a second time changes nothing. */
  lemma SanitizeIsIdempotent(args: seq<string>)
    ensures SanitizeArgs(SanitizeArgs(args, Nothing), Nothing) == SanitizeArgs(args, Nothing)
  {
    ResultIsSanitized(args, Nothing);
    ResultIsSanitized(SanitizeArgs(args, Nothing), Nothing);
  }

  // ---------- what the result depends on ----------

  /** A value that is not shown under this key. */
  predicate HiddenValue(key: string, value: string) {
    IsSensitiveKey(key) || IsSensitiveKey(value) || value == MARK
  }

  /** The same pair, or the same key over two hidden values. */
  predicate AlikePair(p: string, q: string) {
    p == q ||
    var i, j := IndexOf(p, '='), IndexOf(q, '=');
    && i < |p| && j < |q| && p[..i] == q[..j]
    && HiddenValue(p[..i], p[i + 1..]) && HiddenValue(q[..j], q[j + 1..])
  }

  predicate AlikeSet(x: string, y: string) {
    && |Split(x, ',')| == |Split(y, ',')|
    && forall i :: 0 <= i < |Split(x, ',')| ==> AlikePair(Split(x, ',')[i], Split(y, ',')[i])
  }

  /** The same argument, or the same inline flag with two hidden values. */
  predicate AlikeArg(x: string, y: string) {
    x == y ||
    (&& IsAssignment(x) && IsAssignment(y) && FlagOf(x) == FlagOf(y)
     && HiddenAfter(FlagOf(x), ValueOf(x)) && HiddenAfter(FlagOf(y), ValueOf(y)))
  }

  function FirstOr(args: seq<string>): string {
    if args == [] then MARK else args[0]
  }

  function Others(args: seq<string>): seq<string> {
    if args == [] then [] else args[1..]
  }

  /**
   Two argument lists that differ in redacted positions only: the argument after a sensitive
   flag, hidden values after '=', and hidden values inside --set expressions. An argument that
   is missing at the end counts as the placeholder.
   */
  predicate Alike(x: seq<string>, y: seq<string>, pending: Pending)
    decreases |x| + |y|
  {
    if x == [] && y == [] then true
    else
      match pending
      case Nothing =>
        x != [] && y != [] && AlikeArg(x[0], y[0]) && Alike(x[1..], y[1..], AsksNext(x[0]))
      case SetValue => AlikeSet(FirstOr(x), FirstOr(y)) && Alike(Others(x), Others(y), Nothing)
      case Redact => Alike(Others(x), Others(y), Nothing)
  }

  lemma SameAssignment(k: string, v: string, l: string, w: string)
    requires '=' !in k && '=' !in l
    ensures k + "=" + v == l + "=" + w <==> k == l && v == w
  {
    hide IndexOf;
    AssignmentParts(k, v);
    AssignmentParts(l, w);
  }

  lemma PairsMeetIffAlike(p: string, q: string)
    ensures SanitizePair(p) == SanitizePair(q) <==> AlikePair(p, q)
  {
    hide HasMarker, IndexOf;
    var i, j := IndexOf(p, '='), IndexOf(q, '=');
    if i < |p| && j < |q| {
      KeyLacksEquals(p);
      KeyLacksEquals(q);
      PartsOfAssignment(p);
      PartsOfAssignment(q);
      SameAssignment(p[..i], if IsSensitiveKey(p[..i]) || IsSensitiveKey(p[i + 1..]) then MARK else p[i + 1..],
                     q[..j], if IsSensitiveKey(q[..j]) || IsSensitiveKey(q[j + 1..]) then MARK else q[j + 1..]);
    } else {
      EqualsSurvives(p);
      EqualsSurvives(q);
    }
  }

  lemma EqualsSurvives(p: string)
    ensures '=' in SanitizePair(p) <==> IndexOf(p, '=') < |p|
  {
    hide IsSensitiveKey, IndexOf;
    var i := IndexOf(p, '=');
    if i < |p| {
      assert |p[..i]| == i;
      assert SanitizePair(p)[i] == '=';
    } else {
      assert SanitizePair(p) == p;
    }
  }

  lemma SetsMeetIffAlike(x: string, y: string)
    ensures SanitizeSet(x) == SanitizeSet(y) <==> AlikeSet(x, y)
  {
    hide SanitizePair, AlikePair, Split, CleanPair;
    var p, q := Split(x, ','), Split(y, ',');
    PairsLackComma(x);
    PairsLackComma(y);
    SplitOfJoin(SanitizePairs(p), ',');
    SplitOfJoin(SanitizePairs(q), ',');
    forall i | 0 <= i < |p| && i < |q|
      ensures SanitizePairs(p)[i] == SanitizePairs(q)[i] <==> AlikePair(p[i], q[i])
    {
      PairsMeetIffAlike(p[i], q[i]);
    }
    if AlikeSet(x, y) {
      assert SanitizePairs(p) == SanitizePairs(q);
    }
  }

  lemma PairsLackComma(x: string)
    ensures forall i :: 0 <= i < |Split(x, ',')| ==> ',' !in SanitizePairs(Split(x, ','))[i]
  {
    hide SanitizePair, Split, CleanPair;
    SplitPartsLackSeparator(x, ',');
    forall i | 0 <= i < |Split(x, ',')|
      ensures ',' !in SanitizePairs(Split(x, ','))[i]
    {
      PairFixedIffClean(Split(x, ',')[i]);
    }
  }

  lemma ArgsMeetIffAlike(x: string, y: string)
    ensures SanitizeArg(x).0 == SanitizeArg(y).0 <==> AlikeArg(x, y)
  {
    hide SanitizeArg, HiddenAfter, IsAssignment, IndexOf;
    if IsAssignment(x) {
      AssignmentShows(x);
      PartsMatch(x);
    } else {
      OtherArgsAreKept(x);
    }
    if IsAssignment(y) {
      AssignmentShows(y);
      PartsMatch(y);
    } else {
      OtherArgsAreKept(y);
    }
    if IsAssignment(x) && IsAssignment(y) {
      SameAssignment(FlagOf(x), if HiddenAfter(FlagOf(x), ValueOf(x)) then MARK else ValueOf(x),
                     FlagOf(y), if HiddenAfter(FlagOf(y), ValueOf(y)) then MARK else ValueOf(y));
      MarkHidden(FlagOf(x), ValueOf(x), ValueOf(y));
    }
  }

  /** The values shown agree exactly when the values do, or both are hidden. */
  lemma MarkHidden(flag: string, v: string, w: string)
    ensures (if HiddenAfter(flag, v) then MARK else v) == (if HiddenAfter(flag, w) then MARK else w)
       <==> v == w || (HiddenAfter(flag, v) && HiddenAfter(flag, w))
  {
    hide HasMarker, HasPrefix;
  }

  /**
   The result tells two argument lists apart exactly when they differ outside the redacted
   positions: nothing that is redacted shows through, and nothing else is lost.
   */
  lemma {:induction false} SameResultIffAlike(x: seq<string>, y: seq<string>, pending: Pending)
    ensures SanitizeArgs(x, pending) == SanitizeArgs(y, pending) <==> Alike(x, y, pending)
    decreases |x| + |y|
  {
    hide AlikeArg, AlikeSet, SanitizeArg, SanitizeSet, AsksNext;
    if x == [] && y == [] {
    } else if pending == Nothing {
      if x != [] && y != [] {
        ArgsMeetIffAlike(x[0], y[0]);
        ArgFixedIffClean(x[0]);
        ArgFixedIffClean(y[0]);
        FollowUpIs(x[0]);
        SameResultIffAlike(x[1..], y[1..], SanitizeArg(x[0]).1);
        OneStep(x, Nothing);
        OneStep(y, Nothing);
      }
    } else {
      SetsMeetIffAlike(FirstOr(x), FirstOr(y));
      SameResultIffAlike(Others(x), Others(y), Nothing);
      OneStep(x, pending);
      OneStep(y, pending);
    }
  }

  lemma OneStep(args: seq<string>, pending: Pending)
    requires args != [] || pending != Nothing
    ensures var out := SanitizeArgs(args, pending);
            && out != []
            && out[0] == (if pending == Nothing then SanitizeArg(FirstOr(args)).0 else Transform(pending, FirstOr(args)))
            && out[1..] == SanitizeArgs(Others(args), if pending == Nothing then SanitizeArg(FirstOr(args)).1 else Nothing)
  {
    hide SanitizeArg, SanitizeSet;
    MarkIsHarmless();
    HarmlessSet(MARK);
  }

  /** Two command lines that differ in redacted positions only are logged as the same text. */
  lemma NothingRedactedShows(x: seq<string>, y: seq<string>)
    requires Alike(x, y, Nothing)
    ensures Join(SanitizeArgs(x, Nothing), " ") == Join(SanitizeArgs(y, Nothing), " ")
  {
    SameResultIffAlike(x, y, Nothing);
  }

  /** The result differs from the arguments in redacted positions only. */
  lemma RestIsKept(args: seq<string>)
    ensures Alike(args, SanitizeArgs(args, Nothing), Nothing)
  {
    SanitizeIsIdempotent(args);
    SameResultIffAlike(args, SanitizeArgs(args, Nothing), Nothing);
  }

  /** A marker in the value of a plain assignment shows that value and redacts the next argument instead. */
  lemma MarkerInPlainValue()
    ensures SanitizeArgs(["name=mytoken", "next"], Nothing) == ["name=mytoken", MARK]
  {
    var arg := "name=mytoken";
    PlainValue();
    hide SanitizeArg;
    OneStep([arg, "next"], Nothing);
    OneStep(["next"], Redact);
    assert Others([arg, "next"]) == ["next"] && Others(["next"]) == [];
    assert SanitizeArgs([], Nothing) == [];
  }

  lemma PlainValue()
    ensures SanitizeArg("name=mytoken") == ("name=mytoken", Redact)
  {
    var arg := "name=mytoken";
    AssignmentParts("name", "mytoken");
    assert arg == "name" + "=" + "mytoken";
    NameIsPlain();
    assert IsAssignment(arg) && FlagOf(arg) == "name";
    AsksForRedaction(arg);
    FollowUpIs(arg);
    ArgFixedIffClean(arg);
    hide IsSensitiveFlag, IsSensitiveKey, Lower, HasPrefix, IndexOf, SanitizeArg, AsksNext;
    assert CleanArg(arg);
  }

  lemma AsksForRedaction(arg: string)
    requires IsAssignment(arg) && IsSensitiveFlag(arg)
    requires !IsSensitiveFlag(FlagOf(arg)) && !HasPrefix(Lower(FlagOf(arg)), "--") && !HasPrefix(Lower(FlagOf(arg)), "--set")
    ensures AsksNext(arg) == Redact
  {
    hide IsSensitiveFlag, IsSensitiveKey, Lower, HasPrefix, IndexOf;
    HasEquals(arg);
    AssignmentIsNoSetFlag(arg);
  }

  lemma NameIsPlain()
    ensures !IsSensitiveFlag("name") && IsSensitiveFlag("name=mytoken")
    ensures !HasPrefix(Lower("name"), "--") && !HasPrefix(Lower("name"), "--set")
  {
    MarkersAreWords();
    ShortHasNoMarker(FLAG_MARKERS, "name");
    var lower := Lower("name=mytoken");
    assert lower[7..12] == "token";
    assert MatchAt(lower, FLAG_MARKERS[2], 7);
    assert Lower("name")[0] == 'n';
  }

  // ---------- which words are sensitive, and what that does to a command line ----------

  predicate HoldsFlagWord(f: string) {
    Occurs(f, "password") || Occurs(f, "passphrase") || Occurs(f, "token") || Occurs(f, "secret") || Occurs(f, "credential")
  }

  predicate HoldsKeyWord(text: string) {
    || Occurs(text, "password") || Occurs(text, "passphrase") || Occurs(text, "secret")
    || Occurs(text, "token") || Occurs(text, "apikey") || Occurs(text, "privatekey")
  }

  lemma MarkersFolded(markers: seq<string>, text: string)
    requires forall i :: 0 <= i < |markers| ==> HasNoCapital(markers[i])
    ensures HasMarker(markers, text) <==> exists i :: 0 <= i < |markers| && Occurs(text, markers[i])
  {
    hide Contains, Occurs, Lower;
    forall i | 0 <= i < |markers|
      ensures Contains(Lower(text), markers[i]) <==> Occurs(text, markers[i])
    {
      ContainsFolded(text, markers[i]);
    }
  }

  /** A flag is sensitive if and only if one of five words occurs in it, letter case ignored. */
  lemma FlagWords(f: string)
    ensures IsSensitiveFlag(f) <==> HoldsFlagWord(f)
  {
    hide HasMarker, Occurs;
    MarkersFolded(FLAG_MARKERS, f);
    assert Occurs(f, FLAG_MARKERS[0]) <==> Occurs(f, "password");
    assert Occurs(f, FLAG_MARKERS[1]) <==> Occurs(f, "passphrase");
    assert Occurs(f, FLAG_MARKERS[2]) <==> Occurs(f, "token");
    assert Occurs(f, FLAG_MARKERS[3]) <==> Occurs(f, "secret");
    assert Occurs(f, FLAG_MARKERS[4]) <==> Occurs(f, "credential");
  }

  /** A key or value is sensitive if and only if one of six words occurs in it, letter case ignored. */
  lemma KeyWords(text: string)
    ensures IsSensitiveKey(text) <==> HoldsKeyWord(text)
  {
    hide HasMarker, Occurs;
    MarkersFolded(KEY_MARKERS, text);
    assert Occurs(text, KEY_MARKERS[0]) <==> Occurs(text, "password");
    assert Occurs(text, KEY_MARKERS[1]) <==> Occurs(text, "passphrase");
    assert Occurs(text, KEY_MARKERS[2]) <==> Occurs(text, "secret");
    assert Occurs(text, KEY_MARKERS[3]) <==> Occurs(text, "token");
    assert Occurs(text, KEY_MARKERS[4]) <==> Occurs(text, "apikey");
    assert Occurs(text, KEY_MARKERS[5]) <==> Occurs(text, "privatekey");
  }

  /** Text in capitals gets the same verdicts. */
  lemma CapitalsMakeNoDifference(text: string)
    ensures IsSensitiveFlag(Upper(text)) <==> IsSensitiveFlag(text)
    ensures IsSensitiveKey(Upper(text)) <==> IsSensitiveKey(text)
  {
    hide IsSensitiveFlag, IsSensitiveKey, Occurs, Upper;
    FlagWords(text);
    FlagWords(Upper(text));
    KeyWords(text);
    KeyWords(Upper(text));
    OccursInCapitals(text, "password");
    OccursInCapitals(text, "passphrase");
    OccursInCapitals(text, "secret");
    OccursInCapitals(text, "token");
    OccursInCapitals(text, "credential");
    OccursInCapitals(text, "apikey");
    OccursInCapitals(text, "privatekey");
  }

  /** What is still to be done when argument i is reached. */
  function PendingAt(args: seq<string>, i: nat): Pending
    requires i <= |args|
  {
    if i == 0 then Nothing
    else if PendingAt(args, i - 1) != Nothing then Nothing
    else AsksNext(args[i - 1])
  }

  /** Argument i is read for itself, not rewritten on behalf of the one before it. */
  predicate IsPlain(args: seq<string>, i: nat) {
    i < |args| && PendingAt(args, i) == Nothing
  }

  lemma {:induction false} SanitizedUpTo(args: seq<string>, i: nat) returns (done: seq<string>)
    requires i <= |args|
    ensures |done| == i && SanitizeArgs(args, Nothing) == done + SanitizeArgs(args[i..], PendingAt(args, i))
  {
    hide SanitizeArg, Transform, AsksNext, SanitizeArgs;
    if i == 0 {
      assert args[0..] == args;
      done := [];
      assert done + SanitizeArgs(args, Nothing) == SanitizeArgs(args, Nothing);
    } else {
      var before := SanitizedUpTo(args, i - 1);
      var pending := PendingAt(args, i - 1);
      OneMoreArg(args, i - 1, pending, before);
      FollowUpIs(args[i - 1]);
      done := before + [if pending != Nothing then Transform(pending, args[i - 1]) else SanitizeArg(args[i - 1]).0];
    }
  }

  /** The output at a plain argument, and what follows it. */
  lemma PlainArgAt(args: seq<string>, i: nat)
    requires IsPlain(args, i)
    ensures var out := SanitizeArgs(args, Nothing);
            && |out| > i && out[i] == SanitizeArg(args[i]).0
            && (AsksNext(args[i]) != Nothing ==>
                  |out| > i + 1 && out[i + 1] == Transform(AsksNext(args[i]), FirstOr(args[i + 1..])))
  {
    hide SanitizeArg, AsksNext, Transform, SanitizeSet, PendingAt;
    var done := SanitizedUpTo(args, i);
    OneStep(args[i..], Nothing);
    FollowUpIs(args[i]);
    assert args[i..][0] == args[i] && args[i..][1..] == args[i + 1..];
    var rest := SanitizeArgs(args[i..], Nothing);
    var out := SanitizeArgs(args, Nothing);
    assert out == done + rest && out[i] == rest[0];
    if AsksNext(args[i]) != Nothing {
      OneStep(args[i + 1..], AsksNext(args[i]));
      assert out[i + 1] == rest[1] == rest[1..][0];
    }
  }

  /** A plain argument without '=' that holds a flag word, and is no --set flag, has *** after it. */
  lemma FlagWordRedactsNext(args: seq<string>, i: nat)
    requires IsPlain(args, i) && '=' !in args[i] && HoldsFlagWord(args[i])
    requires !Spells(args[i], "--set") && !Spells(args[i], "--set-string")
    ensures var out := SanitizeArgs(args, Nothing); |out| > i + 1 && out[i] == args[i] && out[i + 1] == "***"
  {
    FlagWords(args[i]);
    LowerSpells(args[i], "--set");
    LowerSpells(args[i], "--set-string");
    NoAssignment(args[i]);
    OtherArgsAreKept(args[i]);
    hide IsSensitiveFlag, HoldsFlagWord, SanitizeArgs, PendingAt, Lower;
    assert AsksNext(args[i]) == Redact;
    PlainArgAt(args, i);
  }

  lemma NoAssignment(arg: string)
    requires '=' !in arg
    ensures !IsAssignment(arg)
  {
  }

  /** flag=value shows *** for a flag that holds a flag word, and for a long flag whose value holds a key word. */
  lemma InlineValueIsHidden(args: seq<string>, i: nat, flag: string, value: string)
    requires IsPlain(args, i) && args[i] == flag + "=" + value && flag != "" && '=' !in flag
    requires HoldsFlagWord(flag) || (|flag| >= 2 && flag[..2] == "--" && HoldsKeyWord(value))
    ensures var out := SanitizeArgs(args, Nothing); |out| > i && out[i] == flag + "=" + "***"
  {
    FlagWords(flag);
    KeyWords(value);
    AssignmentParts(flag, value);
    assert |flag| >= 2 && flag[..2] == "--" ==> HasPrefix(Lower(flag), "--") by { DashesStay(flag); }
    assert IsAssignment(args[i]) && FlagOf(args[i]) == flag && ValueOf(args[i]) == value;
    hide IsSensitiveFlag, IsSensitiveKey, HoldsFlagWord, HoldsKeyWord, SanitizeArgs, PendingAt, Lower, HasPrefix;
    PlainArgAt(args, i);
    AssignmentShows(args[i]);
  }

  lemma DashesStay(flag: string)
    ensures |flag| >= 2 && flag[..2] == "--" ==> HasPrefix(Lower(flag), "--")
  {
    if |flag| >= 2 && flag[..2] == "--" {
      assert flag[0] == flag[..2][0] == '-' && flag[1] == flag[..2][1] == '-';
      assert Lower(flag)[..2] == "--";
    }
  }

  /** A pair of a --set expression shows *** exactly for a key or value that holds a key word. */
  lemma PairIsHidden(key: string, value: string)
    requires '=' !in key
    ensures SanitizePair(key + "=" + value) == key + "=" + (if HoldsKeyWord(key) || HoldsKeyWord(value) then "***" else value)
  {
    KeyWords(key);
    KeyWords(value);
    hide IsSensitiveKey, HoldsKeyWord;
    AssignmentParts(key, value);
  }

  /** After --set and --set-string, in any letter case, the expression is rewritten pair by pair. */
  lemma SetFlagRewritesNext(args: seq<string>, i: nat)
    requires IsPlain(args, i) && i + 1 < |args|
    requires Spells(args[i], "--set") || Spells(args[i], "--set-string")
    ensures var out := SanitizeArgs(args, Nothing);
            var pairs := Split(args[i + 1], ',');
            && |out| > i + 1 && out[i] == args[i]
            && Split(out[i + 1], ',') == seq(|pairs|, j requires 0 <= j < |pairs| => SanitizePair(pairs[j]))
  {
    LowerSpells(args[i], "--set");
    LowerSpells(args[i], "--set-string");
    assert AsksNext(args[i]) == SetValue;
    assert SanitizeArg(args[i]).0 == args[i];
    hide SanitizeArgs, PendingAt, Lower, SanitizeArg, AsksNext, SanitizePair, Split;
    PlainArgAt(args, i);
    PairsLackComma(args[i + 1]);
    SplitOfJoin(SanitizePairs(Split(args[i + 1], ',')), ',');
  }
}
