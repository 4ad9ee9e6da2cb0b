/**
 The Go string operations the model relies on. A Go string or byte slice is a Dafny
 string with one `char` per byte; letters are folded in the ASCII range only.
 */
module Strings {

  // ---------- searching ----------

  predicate MatchAt(s: string, sub: string, i: int) {
    0 <= i && i + |sub| <= |s| && s[i..i + |sub|] == sub
  }

  /** strings.Contains */
  predicate Contains(s: string, sub: string) {
    exists i :: 0 <= i <= |s| && MatchAt(s, sub, i)
  }

  /** strings.HasPrefix */
  predicate HasPrefix(s: string, prefix: string) {
    prefix <= s
  }

  /** strings.IndexByte, with |s| in place of -1 when the byte is absent. */
  function IndexOf(s: string, c: char): (i: nat)
    ensures i <= |s|
    ensures forall k :: 0 <= k < i ==> s[k] != c
    ensures i < |s| ==> s[i] == c
  {
    if s == "" then 0 else if s[0] == c then 0 else 1 + IndexOf(s[1..], c)
  }

  lemma IndexOfUnique(s: string, c: char, i: nat)
    requires i <= |s| && (forall k :: 0 <= k < i ==> s[k] != c) && (i < |s| ==> s[i] == c)
    ensures IndexOf(s, c) == i
  {
  }

  lemma ContainsWithin(a: string, s: string, b: string, sub: string)
    requires Contains(s, sub)
    ensures Contains(a + s + b, sub)
  {
    var i :| 0 <= i <= |s| && MatchAt(s, sub, i);
    var t := a + s + b;
    assert t[|a| + i..|a| + i + |sub|] == s[i..i + |sub|];
    assert MatchAt(t, sub, |a| + i);
  }

  /** A word that does not hold the separator cannot straddle it. */
  lemma ContainsAcross(a: string, c: char, b: string, sub: string)
    requires c !in sub && Contains(a + [c] + b, sub)
    ensures Contains(a, sub) || Contains(b, sub)
  {
    var s := a + [c] + b;
    var i :| 0 <= i <= |s| && MatchAt(s, sub, i);
    forall k | i <= k < i + |sub|
      ensures s[k] != c
    {
      assert s[k] == sub[k - i];
    }
    assert s[|a|] == c;
    if i + |sub| <= |a| {
      assert a[i..i + |sub|] == s[i..i + |sub|];
      assert MatchAt(a, sub, i);
    } else if i <= |a| {
      assert false;
    } else {
      var j := i - |a| - 1;
      assert b[j..j + |sub|] == s[i..i + |sub|];
      assert MatchAt(b, sub, j);
    }
  }

  // ---------- letter case and blanks ----------

  function LowerChar(c: char): char {
    if 'A' <= c <= 'Z' then c - 'A' + 'a' else c
  }

  function UpperChar(c: char): char {
    if 'a' <= c <= 'z' then c - 'a' + 'A' else c
  }

  /** strings.ToLower */
  function Lower(s: string): (r: string)
    ensures |r| == |s|
    ensures forall i :: 0 <= i < |s| ==> r[i] == LowerChar(s[i])
  {
    seq(|s|, i requires 0 <= i < |s| => LowerChar(s[i]))
  }

  /** strings.ToUpper */
  function Upper(s: string): (r: string)
    ensures |r| == |s|
    ensures forall i :: 0 <= i < |s| ==> r[i] == UpperChar(s[i])
  {
    seq(|s|, i requires 0 <= i < |s| => UpperChar(s[i]))
  }

  lemma LowerConcat(a: string, b: string)
    ensures Lower(a + b) == Lower(a) + Lower(b)
  {
  }

  // ---------- the same word in any letter case, character by character ----------

  /** c is d, or d is a small letter and c its capital (32 places before it). */
  predicate IsLetter(c: char, d: char) {
    c == d || ('a' <= d <= 'z' && c as int == d as int - 32)
  }

  predicate Spells(s: string, word: string) {
    |s| == |word| && forall k :: 0 <= k < |word| ==> IsLetter(s[k], word[k])
  }

  predicate OccursAt(s: string, word: string, i: int) {
    0 <= i && i + |word| <= |s| && forall k :: 0 <= k < |word| ==> IsLetter(s[i + k], word[k])
  }

  /** The word, without capitals itself, stands somewhere in s, letter case ignored. */
  predicate Occurs(s: string, word: string) {
    exists i :: 0 <= i <= |s| && OccursAt(s, word, i)
  }

  predicate HasNoCapital(word: string) {
    forall k :: 0 <= k < |word| ==> !('A' <= word[k] <= 'Z')
  }

  lemma LowerSpells(s: string, word: string)
    requires HasNoCapital(word)
    ensures Lower(s) == word <==> Spells(s, word)
  {
    if Lower(s) == word {
      assert forall k :: 0 <= k < |word| ==> LowerChar(s[k]) == word[k];
    }
  }

  lemma ContainsFolded(s: string, word: string)
    requires HasNoCapital(word)
    ensures Contains(Lower(s), word) <==> Occurs(s, word)
  {
    forall i | 0 <= i && i + |word| <= |s|
      ensures MatchAt(Lower(s), word, i) <==> OccursAt(s, word, i)
    {
      var part := s[i..i + |word|];
      assert Lower(s)[i..i + |word|] == Lower(part);
      LowerSpells(part, word);
      assert forall k :: 0 <= k < |word| ==> part[k] == s[i + k];
    }
    if i :| 0 <= i <= |s| && OccursAt(s, word, i) {
      assert MatchAt(Lower(s), word, i);
    }
    if i :| 0 <= i <= |Lower(s)| && MatchAt(Lower(s), word, i) {
      assert OccursAt(s, word, i);
    }
  }

  /** Putting a text in capitals changes nothing about the words in it. */
  lemma OccursInCapitals(s: string, word: string)
    requires HasNoCapital(word)
    ensures Occurs(Upper(s), word) <==> Occurs(s, word)
  {
    forall i | 0 <= i && i + |word| <= |s|
      ensures OccursAt(Upper(s), word, i) <==> OccursAt(s, word, i)
    {
      forall k | 0 <= k < |word|
        ensures IsLetter(Upper(s)[i + k], word[k]) <==> IsLetter(s[i + k], word[k])
      {
        assert Upper(s)[i + k] == UpperChar(s[i + k]);
      }
    }
    if i :| 0 <= i <= |s| && OccursAt(s, word, i) {
      assert OccursAt(Upper(s), word, i);
    }
    if i :| 0 <= i <= |Upper(s)| && OccursAt(Upper(s), word, i) {
      assert OccursAt(s, word, i);
    }
  }

  /** Equal, or the two cases of one letter. */
  predicate IsSameLetter(c: char, d: char) {
    IsLetter(c, d) || IsLetter(d, c)
  }

  predicate SameButCase(a: string, b: string) {
    |a| == |b| && forall k :: 0 <= k < |a| ==> IsSameLetter(a[k], b[k])
  }

  lemma LowerMeets(a: string, b: string)
    ensures Lower(a) == Lower(b) <==> SameButCase(a, b)
  {
    if Lower(a) == Lower(b) {
      assert forall k :: 0 <= k < |a| ==> LowerChar(a[k]) == Lower(a)[k] == Lower(b)[k] == LowerChar(b[k]);
    }
  }

  predicate IsSpace(c: char) {
    c == ' ' || '\t' <= c <= '\r'
  }

  function TrimLeft(s: string): string {
    if s != "" && IsSpace(s[0]) then TrimLeft(s[1..]) else s
  }

  function TrimRight(s: string): string {
    if s != "" && IsSpace(s[|s| - 1]) then TrimRight(s[..|s| - 1]) else s
  }

  /** strings.TrimSpace */
  function TrimSpace(s: string): string {
    TrimRight(TrimLeft(s))
  }

  lemma TrimSpaceKeepsFirst(s: string)
    requires s != "" && !IsSpace(s[0])
    ensures TrimSpace(s) != "" && TrimSpace(s)[0] == s[0]
  {
    TrimRightKeepsFirst(s);
  }

  lemma {:induction false} TrimRightKeepsFirst(s: string)
    requires s != "" && !IsSpace(s[0])
    ensures TrimRight(s) != "" && TrimRight(s)[0] == s[0]
  {
    if IsSpace(s[|s| - 1]) {
      TrimRightKeepsFirst(s[..|s| - 1]);
    }
  }

  predicate AllSpaces(s: string) {
    forall k :: 0 <= k < |s| ==> s[k] == ' ' || s[k] as int == 9 || s[k] as int == 10 || s[k] as int == 11 || s[k] as int == 12 || s[k] as int == 13
  }

  lemma {:induction false} TrimLeftStrips(s: string) returns (a: string)
    ensures s == a + TrimLeft(s) && AllSpaces(a)
  {
    if s != "" && IsSpace(s[0]) {
      var rest := TrimLeftStrips(s[1..]);
      a := [s[0]] + rest;
      assert s == [s[0]] + s[1..];
    } else {
      a := "";
    }
  }

  lemma {:induction false} TrimRightStrips(s: string) returns (b: string)
    ensures s == TrimRight(s) + b && AllSpaces(b)
  {
    if s != "" && IsSpace(s[|s| - 1]) {
      var rest := TrimRightStrips(s[..|s| - 1]);
      b := rest + [s[|s| - 1]];
      assert s == s[..|s| - 1] + [s[|s| - 1]];
    } else {
      b := "";
    }
  }

  /** Trimming takes off blanks at both ends, and all of them. */
  lemma TrimSpaceStrips(s: string) returns (a: string, b: string)
    ensures s == a + TrimSpace(s) + b && AllSpaces(a) && AllSpaces(b)
    ensures var t := TrimSpace(s); t != "" ==> !AllSpaces(t[..1]) && !AllSpaces(t[|t| - 1..])
  {
    a := TrimLeftStrips(s);
    b := TrimRightStrips(TrimLeft(s));
    TrimLeftEnds(s);
    TrimRightEnds(TrimLeft(s));
    if TrimLeft(s) != "" {
      TrimRightKeepsFirst(TrimLeft(s));
    }
  }

  lemma {:induction false} TrimLeftEnds(s: string)
    ensures TrimLeft(s) != "" ==> !IsSpace(TrimLeft(s)[0])
  {
    if s != "" && IsSpace(s[0]) {
      TrimLeftEnds(s[1..]);
    }
  }

  lemma {:induction false} TrimRightEnds(s: string)
    ensures TrimRight(s) != "" ==> !IsSpace(TrimRight(s)[|TrimRight(s)| - 1])
  {
    if s != "" && IsSpace(s[|s| - 1]) {
      TrimRightEnds(s[..|s| - 1]);
    }
  }

  /** Trimmed text has nothing left to trim. */
  lemma TrimSpaceTwice(s: string)
    ensures TrimSpace(TrimSpace(s)) == TrimSpace(s)
  {
    TrimLeftEnds(s);
    TrimRightEnds(TrimLeft(s));
    if TrimLeft(s) != "" {
      TrimRightKeepsFirst(TrimLeft(s));
    }
  }

  // ---------- splitting and joining ----------

  /** strings.Split for a one-byte separator. */
  function Split(s: string, sep: char): (parts: seq<string>)
    ensures |parts| >= 1
  {
    var i := IndexOf(s, sep);
    if i == |s| then [s] else [s[..i]] + Split(s[i + 1..], sep)
  }

  lemma {:induction false} SplitPartsLackSeparator(s: string, sep: char)
    ensures forall p :: p in Split(s, sep) ==> sep !in p
    decreases |s|
  {
    var i := IndexOf(s, sep);
    if i < |s| {
      SplitPartsLackSeparator(s[i + 1..], sep);
    } else {
      assert s[..i] == s;
    }
  }

  /** strings.Join */
  function Join(parts: seq<string>, sep: string): string {
    if |parts| == 0 then ""
    else if |parts| == 1 then parts[0]
    else parts[0] + sep + Join(parts[1..], sep)
  }

  lemma {:induction false} JoinOfSplit(s: string, sep: char)
    ensures Join(Split(s, sep), [sep]) == s
    decreases |s|
  {
    var i := IndexOf(s, sep);
    if i < |s| {
      var rest := Split(s[i + 1..], sep);
      JoinOfSplit(s[i + 1..], sep);
      assert Split(s, sep)[1..] == rest;
      assert s == s[..i] + [sep] + s[i + 1..];
    }
  }

  lemma {:induction false} SplitOfJoin(parts: seq<string>, sep: char)
    requires |parts| >= 1 && forall i :: 0 <= i < |parts| ==> sep !in parts[i]
    ensures Split(Join(parts, [sep]), sep) == parts
  {
    var s := Join(parts, [sep]);
    if |parts| == 1 {
      IndexOfUnique(s, sep, |s|);
    } else {
      var tail := Join(parts[1..], [sep]);
      SplitOfJoin(parts[1..], sep);
      SplitFirst(parts[0], sep, tail);
      assert s == parts[0] + [sep] + tail;
    }
  }

  /** A word without the separator, then the separator: the word is the first part. */
  lemma SplitFirst(word: string, sep: char, rest: string)
    requires sep !in word
    ensures IndexOf(word + [sep] + rest, sep) == |word|
    ensures Split(word + [sep] + rest, sep) == [word] + Split(rest, sep)
  {
    var s := word + [sep] + rest;
    IndexOfUnique(s, sep, |word|);
    assert s[..|word|] == word && s[|word| + 1..] == rest;
  }

  lemma {:induction false} SplitConcat(a: string, sep: char, b: string)
    ensures Split(a + [sep] + b, sep) == Split(a, sep) + Split(b, sep)
    decreases |a|
  {
    var i := IndexOf(a, sep);
    var word := a[..i];
    if i == |a| {
      SplitFirst(a, sep, b);
    } else {
      var mid := a[i + 1..];
      var rest := mid + [sep] + b;
      assert a == word + [sep] + mid;
      calc {
        Split(a + [sep] + b, sep);
        { assert a + [sep] + b == word + [sep] + rest; SplitFirst(word, sep, rest); }
        [word] + Split(rest, sep);
        { SplitConcat(mid, sep, b); }
        [word] + (Split(mid, sep) + Split(b, sep));
        ([word] + Split(mid, sep)) + Split(b, sep);
        { SplitFirst(word, sep, mid); }
        Split(a, sep) + Split(b, sep);
      }
    }
  }

  lemma {:induction false} JoinConcat(a: seq<string>, b: seq<string>, sep: string)
    requires |a| >= 1 && |b| >= 1
    ensures Join(a + b, sep) == Join(a, sep) + sep + Join(b, sep)
  {
    if |a| == 1 {
      assert (a + b)[1..] == b;
    } else {
      assert (a + b)[1..] == a[1..] + b;
      JoinConcat(a[1..], b, sep);
    }
  }
}
