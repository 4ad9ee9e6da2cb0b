/**
 Redacting free text before it is logged (SanitizeText in internal/cli/logging/sanitizer.go):
 a left-to-right scan for one of six keywords in any letter case, an equals sign and then
 between one and 128 characters that are not blank.
 */
module TextSanitizer {
  import opened Strings
  import opened Sanitizer

  const MAX_VALUE := 128

  /** The blanks of the pattern: tab, line feed, form feed, carriage return and space. */
  predicate IsBlank(c: char) {
    c == '\t' || c == '\n' || c == '\U{0C}' || c == '\r' || c == ' '
  }

  predicate IsKeyword(w: string) {
    exists i :: 0 <= i < |KEY_MARKERS| && Lower(w) == KEY_MARKERS[i]
  }

  /** The pattern matches at the front. No keyword holds '=', so the first '=' ends it. */
  predicate Here(t: string) {
    var e := IndexOf(t, '=');
    e + 1 < |t| && IsKeyword(t[..e]) && !IsBlank(t[e + 1])
  }

  function KeyOf(t: string): string
    requires Here(t)
  {
    t[..IndexOf(t, '=')]
  }

  function After(t: string): string
    requires Here(t)
  {
    t[IndexOf(t, '=') + 1..]
  }

  /** How many characters stand before the first blank. */
  function Run(t: string): (n: nat)
    ensures n <= |t|
    ensures forall i :: 0 <= i < n ==> !IsBlank(t[i])
    ensures n < |t| ==> IsBlank(t[n])
  {
    if t == "" || IsBlank(t[0]) then 0 else 1 + Run(t[1..])
  }

  /** The length of a match's value. */
  function Cap(t: string): (n: nat)
    ensures n <= |t| && n <= MAX_VALUE
  {
    if Run(t) <= MAX_VALUE then Run(t) else MAX_VALUE
  }

  function Found(t: string): string
    requires Here(t)
  {
    After(t)[..Cap(After(t))]
  }

  function Rest(t: string): (r: string)
    requires Here(t)
    ensures |r| < |t|
  {
    After(t)[Cap(After(t))..]
  }

  function SanitizeText(t: string): string
    decreases |t|
  {
    if t == "" then ""
    else if Here(t) then KeyOf(t) + "=" + MARK + SanitizeText(Rest(t))
    else [t[0]] + SanitizeText(t[1..])
  }

  // ---------- the parts of a match ----------

  lemma KeywordFacts(w: string)
    requires IsKeyword(w)
    ensures |w| >= 5 && '*' !in w
  {
    var i :| 0 <= i < |KEY_MARKERS| && Lower(w) == KEY_MARKERS[i];
    assert forall k :: 0 <= k < |w| ==> Lower(w)[k] == LowerChar(w[k]);
  }

  lemma MatchParts(t: string)
    requires Here(t)
    ensures t == KeyOf(t) + "=" + Found(t) + Rest(t)
    ensures '=' !in KeyOf(t) && IsKeyword(KeyOf(t)) && |KeyOf(t)| >= 5
    ensures After(t) != "" && !IsBlank(After(t)[0]) && |t| == |KeyOf(t)| + 1 + |After(t)|
  {
    hide IsKeyword, IndexOf, Cap;
    KeywordFacts(KeyOf(t));
    PartsOfAssignment(t);
    KeyLacksEquals(t);
    assert After(t) == Found(t) + Rest(t);
  }

  lemma MatchFrom(key: string, x: string)
    requires IsKeyword(key) && '=' !in key && x != "" && !IsBlank(x[0])
    ensures Here(key + "=" + x) && KeyOf(key + "=" + x) == key && After(key + "=" + x) == x
  {
    hide IsKeyword, IndexOf;
    AssignmentParts(key, x);
  }

  /** The text starts with a keyword, '=' and a non-blank. */
  predicate StartsMatch(t: string, key: string, x: string) {
    IsKeyword(key) && x != "" && !IsBlank(x[0]) && t == key + "=" + x
  }

  /** The pattern as it is written: a match starts here if and only if such parts exist. */
  lemma HereIffMatch(t: string)
    ensures Here(t) <==> exists key, x :: StartsMatch(t, key, x)
  {
    hide IsKeyword, Here;
    if Here(t) {
      MatchParts(t);
      assert t == KeyOf(t) + "=" + After(t);
      assert StartsMatch(t, KeyOf(t), After(t));
    }
    if key, x :| StartsMatch(t, key, x) {
      KeywordLacksEquals(key);
      MatchFrom(key, x);
    }
  }

  lemma KeywordLacksEquals(w: string)
    requires IsKeyword(w)
    ensures '=' !in w
  {
    assert forall k :: 0 <= k < |w| ==> Lower(w)[k] == LowerChar(w[k]);
  }

  /** A match takes between 1 and 128 non-blanks, and as many of them as there are. */
  lemma FoundIsLongest(t: string)
    requires Here(t)
    ensures 1 <= |Found(t)| <= 128
    ensures forall i :: 0 <= i < |Found(t)| ==> !IsBlank(Found(t)[i])
    ensures |Found(t)| == 128 || Rest(t) == "" || IsBlank(Rest(t)[0])
  {
    MatchParts(t);
    hide Here, IsKeyword, After, KeyOf;
  }

  /** Text that starts with a character no keyword holds does not match. */
  lemma NoMatchAtMark(c: char, x: string)
    requires c == '*' || c == '='
    ensures !Here([c] + x)
  {
    hide IsKeyword;
    var t := [c] + x;
    var e := IndexOf(t, '=');
    assert e > 0 ==> t[..e][0] == c;
    if IsKeyword(t[..e]) {
      KeywordFacts(t[..e]);
    }
  }

  // ---------- what stays in place ----------

  lemma FirstIsKept(t: string)
    requires t != ""
    ensures SanitizeText(t) != "" && SanitizeText(t)[0] == t[0]
  {
    hide IsKeyword, IndexOf;
    if Here(t) {
      MatchParts(t);
      assert t[0] == KeyOf(t)[0];
    }
  }

  /** Up to and including the first '=' nothing changes, nor does the kind of what follows it. */
  predicate SameFront(s: string, t: string) {
    var e := IndexOf(t, '=');
    if e == |t| then s == t
    else
      && e < |s| && s[..e + 1] == t[..e + 1]
      && (|s| == e + 1 <==> |t| == e + 1)
      && (e + 1 < |s| && e + 1 < |t| ==> (IsBlank(s[e + 1]) <==> IsBlank(t[e + 1])))
  }

  lemma FrontStep(c: char, s: string, t: string)
    requires SameFront(s, t)
    requires t != "" ==> s != "" && s[0] == t[0]
    ensures SameFront([c] + s, [c] + t)
  {
    assert ([c] + t)[1..] == t;
    if c != '=' {
      var e := IndexOf(t, '=');
      if e < |t| {
        assert ([c] + s)[..e + 2] == [c] + s[..e + 1];
        assert ([c] + t)[..e + 2] == [c] + t[..e + 1];
      }
    }
  }

  lemma FrontOfMatch(key: string, x: string, y: string)
    requires '=' !in key && x != "" && y != "" && !IsBlank(x[0]) && !IsBlank(y[0])
    ensures SameFront(key + "=" + x, key + "=" + y)
  {
    hide IndexOf;
    AssignmentParts(key, x);
    AssignmentParts(key, y);
    assert (key + "=" + x)[..|key| + 1] == key + "=" == (key + "=" + y)[..|key| + 1];
  }

  lemma {:induction false} FrontIsKept(t: string)
    ensures SameFront(SanitizeText(t), t)
    decreases |t|
  {
    hide IsKeyword, IndexOf, SameFront, Cap;
    if t == "" {
      assert SameFront("", "") by { EmptyFront(); }
    } else if Here(t) {
      MatchParts(t);
      var x := MARK + SanitizeText(Rest(t));
      FrontOfMatch(KeyOf(t), x, After(t));
      assert SanitizeText(t) == KeyOf(t) + "=" + x;
      assert t == KeyOf(t) + "=" + After(t);
    } else {
      FrontIsKept(t[1..]);
      if t[1..] != "" {
        FirstIsKept(t[1..]);
      }
      FrontStep(t[0], SanitizeText(t[1..]), t[1..]);
      assert [t[0]] + t[1..] == t;
    }
  }

  lemma EmptyFront()
    ensures SameFront("", "")
  {
  }

  lemma SameFrontMatchesAlike(s: string, t: string)
    requires SameFront(s, t)
    ensures Here(s) <==> Here(t)
  {
    hide IsKeyword;
    var e := IndexOf(t, '=');
    if e < |t| {
      assert s[e] == s[..e + 1][e] == t[..e + 1][e] == '=';
      assert forall k :: 0 <= k < e ==> s[k] == s[..e + 1][k] == t[..e + 1][k];
      IndexOfUnique(s, '=', e);
      assert s[..e] == s[..e + 1][..e] == t[..e];
    }
  }

  /** Sanitizing what follows does not create a match in front of it, nor remove one. */
  lemma NoNewMatch(t: string)
    requires t != "" && !Here(t)
    ensures !Here([t[0]] + SanitizeText(t[1..]))
  {
    hide Here, SameFront, IndexOf;
    FrontIsKept(t);
    assert SanitizeText(t) == [t[0]] + SanitizeText(t[1..]);
    SameFrontMatchesAlike(SanitizeText(t), t);
  }

  // ---------- nothing is left exposed ----------

  /** Wherever a keyword, '=' and a non-blank stand, the placeholder follows the '='. */
  predicate Masked(t: string) {
    forall p :: 0 <= p <= |t| && Here(t[p..]) ==> HasPrefix(After(t[p..]), MARK)
  }

  lemma MaskedStep(c: char, t: string)
    requires Masked(t) && (Here([c] + t) ==> HasPrefix(After([c] + t), MARK))
    ensures Masked([c] + t)
  {
    hide Here, After;
    var u := [c] + t;
    forall p | 0 <= p <= |u| && Here(u[p..])
      ensures HasPrefix(After(u[p..]), MARK)
    {
      if p > 0 {
        assert u[p..] == t[p - 1..];
      } else {
        assert u[p..] == u;
      }
    }
  }

  lemma MaskedMark(x: string)
    requires Masked(x)
    ensures Masked(MARK + x) && Masked("=" + (MARK + x))
  {
    hide Here, After, Masked;
    forall c, y | c == '*' || c == '='
      ensures !Here([c] + y)
    {
      NoMatchAtMark(c, y);
    }
    MaskedStep('*', x);
    MaskedStep('*', "*" + x);
    MaskedStep('*', "*" + ("*" + x));
    assert MARK + x == "*" + ("*" + ("*" + x));
    MaskedStep('=', MARK + x);
  }

  lemma {:induction false} MaskedKey(key: string, x: string)
    requires '=' !in key && Masked(x)
    ensures Masked(key + "=" + (MARK + x))
  {
    hide Here, Masked, After;
    MaskedMark(x);
    var behind := "=" + (MARK + x);
    if key == "" {
      assert key + behind == behind;
      assert key + "=" + (MARK + x) == behind;
    } else {
      MaskedKey(key[1..], x);
      var tail := key[1..] + "=" + (MARK + x);
      var whole := key + "=" + (MARK + x);
      assert whole == [key[0]] + tail;
      if Here(whole) {
        AfterKey(key, MARK + x);
      }
      MaskedStep(key[0], tail);
    }
  }

  lemma AfterKey(key: string, x: string)
    requires '=' !in key && Here(key + "=" + x)
    ensures After(key + "=" + x) == x
  {
    hide IndexOf, IsKeyword;
    AssignmentParts(key, x);
  }

  /** For every text, the result shows no value after a keyword and '='. */
  lemma {:induction false} ResultIsMasked(t: string)
    ensures Masked(SanitizeText(t))
    decreases |t|
  {
    hide Here, Masked, KeyOf, After;
    if t == "" {
      assert Masked("") by { EmptyIsMasked(); }
    } else if Here(t) {
      ResultIsMasked(Rest(t));
      MatchParts(t);
      MaskedKey(KeyOf(t), SanitizeText(Rest(t)));
      assert SanitizeText(t) == KeyOf(t) + "=" + (MARK + SanitizeText(Rest(t)));
    } else {
      ResultIsMasked(t[1..]);
      NoNewMatch(t);
      MaskedStep(t[0], SanitizeText(t[1..]));
    }
  }

  lemma EmptyIsMasked()
    ensures Masked("")
  {
    hide After;
    assert forall p :: 0 <= p <= 0 ==> !Here(""[p..]);
  }

  // ---------- idempotence, exactly ----------

  /** No match of the scan stops at 128 characters in front of a further non-blank. */
  predicate NoCut(t: string)
    decreases |t|
  {
    if t == "" then true
    else if Here(t) then Run(After(t)) <= MAX_VALUE && NoCut(Rest(t))
    else NoCut(t[1..])
  }

  lemma MaskedSuffix(t: string, m: nat)
    requires Masked(t) && m <= |t|
    ensures Masked(t[m..])
  {
    hide Here, After;
    var u := t[m..];
    forall p | 0 <= p <= |u| && Here(u[p..])
      ensures HasPrefix(After(u[p..]), MARK)
    {
      assert u[p..] == t[m + p..];
    }
  }

  lemma RunOverMark(x: string)
    ensures Run(MARK + x) == 3 + Run(x)
  {
    assert (MARK + x)[1..] == "**" + x;
    assert ("**" + x)[1..] == "*" + x;
    assert ("*" + x)[1..] == x;
  }

  lemma MatchFits(t: string)
    requires Here(t) && HasPrefix(After(t), MARK)
    ensures |t| >= |KeyOf(t)| + 4 + |Rest(t)|
  {
    hide Here, IsKeyword;
    MatchParts(t);
    var a := After(t);
    RunOverMark(a[3..]);
    assert a == MARK + a[3..];
  }

  /** Masked text does not grow. */
  lemma {:induction false} MaskedDoesNotGrow(t: string)
    requires Masked(t)
    ensures |SanitizeText(t)| <= |t|
    decreases |t|
  {
    hide Here, After, KeyOf, Rest, Masked;
    if t == "" {
    } else if Here(t) {
      assert HasPrefix(After(t), MARK) by { MaskedAtFront(t); }
      MatchFits(t);
      MaskedSuffix(t, |t| - |Rest(t)|);
      RestIsSuffix(t);
      MaskedDoesNotGrow(Rest(t));
    } else {
      MaskedSuffix(t, 1);
      MaskedDoesNotGrow(t[1..]);
    }
  }

  lemma MaskedAtFront(t: string)
    requires Masked(t) && Here(t)
    ensures HasPrefix(After(t), MARK)
  {
    hide Here, After;
    assert t[0..] == t;
  }

  lemma RestIsSuffix(t: string)
    requires Here(t)
    ensures t[|t| - |Rest(t)|..] == Rest(t)
  {
    hide Here, IndexOf, Run, Cap;
    var e := IndexOf(t, '=');
    assert e + 1 < |t| by { EqualsInside(t); }
    assert After(t) == t[e + 1..];
    assert Rest(t) == t[e + 1 + Cap(After(t))..];
  }

  lemma EqualsInside(t: string)
    requires Here(t)
    ensures IndexOf(t, '=') + 1 < |t|
  {
  }

  /** How much of what follows a match its second scan takes for its value as well. */
  function Swallowed(z: string): (n: nat)
    ensures n <= |z|
  {
    if Run(z) <= MAX_VALUE - 3 then Run(z) else MAX_VALUE - 3
  }

  /** What the second scan sees of a match: the same keyword over a value that starts with ***. */
  lemma SecondScan(t: string)
    requires Here(t)
    ensures var s, z := SanitizeText(t), SanitizeText(Rest(t));
            && Here(s) && KeyOf(s) == KeyOf(t) && After(s) == MARK + z && Rest(s) == z[Swallowed(z)..]
  {
    hide IsKeyword, IndexOf, Run, After, Here, KeyOf;
    var z := SanitizeText(Rest(t));
    MatchParts(t);
    assert SanitizeText(t) == KeyOf(t) + "=" + (MARK + z);
    MatchFrom(KeyOf(t), MARK + z);
    RunOverMark(z);
    assert (MARK + z)[3 + Swallowed(z)..] == z[Swallowed(z)..];
  }

  lemma SecondResult(t: string)
    requires Here(t)
    ensures var z := SanitizeText(Rest(t));
            SanitizeText(SanitizeText(t)) == KeyOf(t) + "=" + MARK + SanitizeText(z[Swallowed(z)..])
  {
    hide After, Here, KeyOf, Rest, Swallowed;
    SecondScan(t);
  }

  lemma RestStartsBlankIffNotCut(t: string)
    requires Here(t)
    ensures Run(After(t)) <= MAX_VALUE <==> Rest(t) == "" || IsBlank(Rest(t)[0])
    ensures Run(Rest(t)) == 0 <==> Rest(t) == "" || IsBlank(Rest(t)[0])
  {
    hide Here, IsKeyword, IndexOf;
  }

  lemma RunKept(t: string)
    ensures Run(SanitizeText(t)) == 0 <==> Run(t) == 0
  {
    hide Here, IsKeyword, IndexOf;
    if t != "" {
      FirstIsKept(t);
    }
  }

  /**
   Scanning a second time changes nothing exactly when no match was cut at 128 characters;
   a cut makes the second result strictly shorter.
   */
  lemma {:induction false} IdempotentIffNoCut(t: string)
    ensures NoCut(t) <==> SanitizeText(SanitizeText(t)) == SanitizeText(t)
    ensures !NoCut(t) ==> |SanitizeText(SanitizeText(t))| < |SanitizeText(t)|
    decreases |t|
  {
    hide Here, After, KeyOf, Rest, Run, Masked;
    if t == "" {
    } else if Here(t) {
      var z := SanitizeText(Rest(t));
      SecondResult(t);
      RestStartsBlankIffNotCut(t);
      RunKept(Rest(t));
      IdempotentIffNoCut(Rest(t));
      if Run(z) == 0 {
        assert z[0..] == z;
      } else {
        ResultIsMasked(Rest(t));
        MaskedSuffix(z, Swallowed(z));
        MaskedDoesNotGrow(z[Swallowed(z)..]);
      }
    } else {
      NoNewMatch(t);
      IdempotentIffNoCut(t[1..]);
      assert SanitizeText(t)[1..] == SanitizeText(t[1..]);
    }
  }

  /** Text whose non-blank runs are at most 128 long has no cut. */
  lemma {:induction false} ShortRunsAreNotCut(t: string)
    requires forall p :: 0 <= p <= |t| ==> Run(t[p..]) <= 128
    ensures NoCut(t)
    decreases |t|
  {
    hide Here, KeyOf, Rest, Run;
    if t != "" {
      var m := if Here(t) then |t| - |Rest(t)| else 1;
      var u := t[m..];
      forall p | 0 <= p <= |u|
        ensures Run(u[p..]) <= MAX_VALUE
      {
        assert u[p..] == t[m + p..];
      }
      ShortRunsAreNotCut(u);
      if Here(t) {
        RestIsSuffix(t);
        EqualsInside(t);
      }
    }
  }

  /** A value one character too long. */
  lemma CutExists()
    ensures !NoCut("token=" + seq(129, _ => 'x'))
  {
    var value := seq(129, _ => 'x');
    assert Lower("token") == KEY_MARKERS[3];
    MatchFrom("token", value);
    assert Run(value) == |value|;
    assert "token" + "=" + value == "token=" + value;
  }

  // ---------- what is kept ----------

  /** A stretch of the text: one character that is copied, or a match. */
  datatype Piece = Copied(c: char) | Match(key: string, value: string)

  function Pieces(t: string): seq<Piece>
    decreases |t|
  {
    if t == "" then []
    else if Here(t) then [Match(KeyOf(t), Found(t))] + Pieces(Rest(t))
    else [Copied(t[0])] + Pieces(t[1..])
  }

  function PieceText(p: Piece): string {
    match p
    case Copied(c) => [c]
    case Match(k, v) => k + "=" + v
  }

  function Text(pieces: seq<Piece>): string {
    if pieces == [] then "" else PieceText(pieces[0]) + Text(pieces[1..])
  }

  function Redacted(p: Piece): Piece {
    match p
    case Copied(c) => p
    case Match(k, v) => Match(k, MARK)
  }

  /** Every match with its value replaced. */
  function AllRedacted(pieces: seq<Piece>): seq<Piece> {
    if pieces == [] then [] else [Redacted(pieces[0])] + AllRedacted(pieces[1..])
  }

  /**
   Everything outside the matched values is kept, in order: text and result are the same
   pieces, one with the values and the other with the placeholder.
   */
  lemma {:induction false} OnlyValuesChange(t: string)
    ensures Text(Pieces(t)) == t
    ensures Text(AllRedacted(Pieces(t))) == SanitizeText(t)
    decreases |t|
  {
    hide Here, After, KeyOf, Rest, Run, Found;
    if t == "" {
    } else if Here(t) {
      OnlyValuesChange(Rest(t));
      MatchParts(t);
      var first, others := Match(KeyOf(t), Found(t)), Pieces(Rest(t));
      FirstPiece(first, others);
    } else {
      OnlyValuesChange(t[1..]);
      FirstPiece(Copied(t[0]), Pieces(t[1..]));
    }
  }

  lemma FirstPiece(p: Piece, others: seq<Piece>)
    ensures Text([p] + others) == PieceText(p) + Text(others)
    ensures AllRedacted([p] + others) == [Redacted(p)] + AllRedacted(others)
    ensures Text(AllRedacted([p] + others)) == PieceText(Redacted(p)) + Text(AllRedacted(others))
  {
    assert ([p] + others)[1..] == others;
    assert ([Redacted(p)] + AllRedacted(others))[1..] == AllRedacted(others);
  }

  /** Without a cut the second scan finds the same pieces, each match now holding the placeholder. */
  lemma {:induction false} SamePiecesAgain(t: string)
    requires NoCut(t)
    ensures Pieces(SanitizeText(t)) == AllRedacted(Pieces(t))
    decreases |t|
  {
    hide Here, After, KeyOf, Rest, Run, Found;
    if t == "" {
    } else if Here(t) {
      var z := SanitizeText(Rest(t));
      SecondScan(t);
      RestStartsBlankIffNotCut(t);
      RunKept(Rest(t));
      FoundMark(SanitizeText(t), z);
      SamePiecesAgain(Rest(t));
      assert z[0..] == z;
      FirstPiece(Match(KeyOf(t), Found(t)), Pieces(Rest(t)));
    } else {
      NoNewMatch(t);
      SamePiecesAgain(t[1..]);
      assert SanitizeText(t)[1..] == SanitizeText(t[1..]);
      FirstPiece(Copied(t[0]), Pieces(t[1..]));
    }
  }

  lemma FoundMark(s: string, z: string)
    requires Here(s) && After(s) == MARK + z && Run(z) == 0
    ensures Found(s) == MARK
  {
    hide Here, After;
    RunOverMark(z);
  }

  // ---------- which words and which blanks ----------

  /** The six keywords, in any letter case. */
  lemma Keywords(w: string)
    ensures IsKeyword(w) <==>
            || Spells(w, "password") || Spells(w, "passphrase") || Spells(w, "secret")
            || Spells(w, "token") || Spells(w, "apikey") || Spells(w, "privatekey")
  {
    hide Spells, Lower;
    LowerSpells(w, "password");
    LowerSpells(w, "passphrase");
    LowerSpells(w, "secret");
    LowerSpells(w, "token");
    LowerSpells(w, "apikey");
    LowerSpells(w, "privatekey");
    assert Lower(w) == KEY_MARKERS[0] <==> Lower(w) == "password";
    assert Lower(w) == KEY_MARKERS[1] <==> Lower(w) == "passphrase";
    assert Lower(w) == KEY_MARKERS[2] <==> Lower(w) == "secret";
    assert Lower(w) == KEY_MARKERS[3] <==> Lower(w) == "token";
    assert Lower(w) == KEY_MARKERS[4] <==> Lower(w) == "apikey";
    assert Lower(w) == KEY_MARKERS[5] <==> Lower(w) == "privatekey";
  }

  /** A blank of the pattern: code 9, 10, 12, 13 or 32. */
  predicate IsBlankCode(c: int) {
    c == 9 || c == 10 || c == 12 || c == 13 || c == 32
  }

  /** A keyword, '=' and a value: the value is replaced up to the first blank, and the text from there on is kept. */
  lemma BlankEndsValue(key: string, value: string, blank: char, rest: string)
    requires IsKeyword(key) && 1 <= |value| <= 128
    requires forall i :: 0 <= i < |value| ==> !IsBlankCode(value[i] as int)
    requires IsBlankCode(blank as int)
    ensures SanitizeText(key + "=" + value + [blank] + rest) == key + "=" + "***" + [blank] + SanitizeText(rest)
  {
    hide IsKeyword, Here, After, KeyOf, Found, Rest, SanitizeText;
    var x := value + [blank] + rest;
    MatchBeforeBlank(key, value, blank, rest);
    BlankIsCopied(blank, rest);
    MatchIsMasked(key + "=" + x);
    assert key + "=" + value + [blank] + rest == key + "=" + x;
  }

  lemma MatchIsMasked(t: string)
    requires Here(t)
    ensures SanitizeText(t) == KeyOf(t) + "=" + MARK + SanitizeText(Rest(t))
  {
    hide Here, KeyOf, Rest;
    assert t != "" by { EqualsInside(t); }
  }

  lemma MatchBeforeBlank(key: string, value: string, blank: char, rest: string)
    requires IsKeyword(key) && 1 <= |value| <= 128
    requires forall i :: 0 <= i < |value| ==> !IsBlankCode(value[i] as int)
    requires IsBlankCode(blank as int)
    ensures var t := key + "=" + (value + [blank] + rest); Here(t) && KeyOf(t) == key && Rest(t) == [blank] + rest
  {
    hide IsKeyword, Here, After, KeyOf, Run;
    var x := value + [blank] + rest;
    KeywordLacksEquals(key);
    assert x[0] == value[0];
    MatchFrom(key, x);
    RunUntil(value, blank, rest);
    assert x[|value|..] == [blank] + rest;
  }

  lemma {:induction false} RunUntil(value: string, blank: char, rest: string)
    requires IsBlankCode(blank as int) && forall i :: 0 <= i < |value| ==> !IsBlankCode(value[i] as int)
    ensures Run(value + [blank] + rest) == |value|
  {
    var x := value + [blank] + rest;
    if value == "" {
      assert x[0] == blank;
    } else {
      RunUntil(value[1..], blank, rest);
      assert x[1..] == value[1..] + [blank] + rest;
      assert x[0] == value[0];
    }
  }

  lemma BlankIsCopied(blank: char, rest: string)
    requires IsBlankCode(blank as int)
    ensures SanitizeText([blank] + rest) == [blank] + SanitizeText(rest)
  {
    var t := [blank] + rest;
    assert t[1..] == rest;
    hide IsKeyword;
    var w := t[..IndexOf(t, '=')];
    assert w != "" ==> w[0] == blank;
    Keywords(w);
  }
}
