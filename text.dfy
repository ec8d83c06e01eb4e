/** The few Go `strings` functions the tunnel relies on, over ASCII text. */
module Text {

  /** Index of the first occurrence of `c` in `s`. */
  function IndexOf(s: string, c: char): (k: nat)
    requires c in s
    ensures k < |s| && s[k] == c && c !in s[..k]
  {
    if s[0] == c then 0 else 1 + IndexOf(s[1..], c)
  }

  /** The inverse of `Split`: the parts glued back together with `sep`. */
  function Join(parts: seq<string>, sep: char): string
  {
    if parts == [] then ""
    else if |parts| == 1 then parts[0]
    else parts[0] + [sep] + Join(parts[1..], sep)
  }

  /** Number of occurrences of `c` in `s`. */
  function Count(s: string, c: char): nat
  {
    if s == [] then 0 else (if s[0] == c then 1 else 0) + Count(s[1..], c)
  }

  /**
   * `strings.Split(s, string(sep))`: the maximal `sep`-free pieces of `s`, so
   * one more piece than there are separators (`Split("", sep) == [""]`).
   */
  function Split(s: string, sep: char): (parts: seq<string>)
    ensures |parts| == Count(s, sep) + 1
    ensures forall i :: 0 <= i < |parts| ==> sep !in parts[i]
    ensures Join(parts, sep) == s
    decreases |s|
  {
    if sep !in s then
      NoSepCount(s, sep);
      [s]
    else
      var k := IndexOf(s, sep);
      var rest := Split(s[k + 1..], sep);
      SplitCons(s, sep, k, rest);
      [s[..k]] + rest
  }

  /** The recursive step of `Split`: the first piece in front of the split of what follows its separator. */
  lemma SplitCons(s: string, sep: char, k: nat, rest: seq<string>)
    requires k < |s| && s[k] == sep && sep !in s[..k]
    requires |rest| == Count(s[k + 1..], sep) + 1 && Join(rest, sep) == s[k + 1..]
    requires forall i :: 0 <= i < |rest| ==> sep !in rest[i]
    ensures |[s[..k]] + rest| == Count(s, sep) + 1
    ensures forall i :: 0 <= i < |[s[..k]] + rest| ==> sep !in ([s[..k]] + rest)[i]
    ensures Join([s[..k]] + rest, sep) == s
  {
    CountSplitAt(s, sep, k);
    JoinCons(s[..k], rest, sep);
    assert s == s[..k] + [sep] + s[k + 1..];
  }

  lemma JoinCons(piece: string, parts: seq<string>, sep: char)
    requires parts != []
    ensures Join([piece] + parts, sep) == piece + [sep] + Join(parts, sep)
  {
    assert ([piece] + parts)[1..] == parts;
  }

  /** A character absent from the text is absent from every piece of its split. */
  lemma {:induction false} SplitPiecesAvoid(s: string, sep: char, c: char)
    requires c !in s
    ensures forall i :: 0 <= i < |Split(s, sep)| ==> c !in Split(s, sep)[i]
    decreases |s|
  {
    if sep in s {
      var k := IndexOf(s, sep);
      var tail := s[k + 1..];
      assert c !in tail by {
        forall j | 0 <= j < |tail| ensures tail[j] != c { assert tail[j] == s[k + 1 + j]; }
      }
      assert c !in s[..k] by {
        forall j | 0 <= j < k ensures s[..k][j] != c { assert s[..k][j] == s[j]; }
      }
      SplitPiecesAvoid(tail, sep, c);
      var parts := Split(s, sep);
      assert parts == [s[..k]] + Split(tail, sep);
      forall i | 1 <= i < |parts|
        ensures parts[i] == Split(tail, sep)[i - 1]
      {
      }
    }
  }

  lemma {:induction false} NoSepCount(s: string, c: char)
    requires c !in s
    ensures Count(s, c) == 0
  {
    if s != [] {
      assert c !in s[1..] by { forall i | 0 <= i < |s| - 1 ensures s[1..][i] != c { assert s[1..][i] == s[i + 1]; } }
      NoSepCount(s[1..], c);
    }
  }

  lemma {:induction false} CountConcat(a: string, b: string, c: char)
    ensures Count(a + b, c) == Count(a, c) + Count(b, c)
  {
    if a == [] {
      assert a + b == b;
    } else {
      assert (a + b)[0] == a[0];
      assert (a + b)[1..] == a[1..] + b;
      CountConcat(a[1..], b, c);
    }
  }

  lemma CountSplitAt(s: string, c: char, k: nat)
    requires k < |s| && s[k] == c && c !in s[..k]
    ensures Count(s, c) == Count(s[k + 1..], c) + 1
  {
    assert s == s[..k] + ([s[k]] + s[k + 1..]);
    CountConcat(s[..k], [s[k]] + s[k + 1..], c);
    CountConcat([s[k]], s[k + 1..], c);
    NoSepCount(s[..k], c);
    assert Count([s[k]], c) == 1 by { assert [s[k]][1..] == []; }
  }

  /** Splitting text that starts with a separator-free piece yields that piece first. */
  lemma SplitAfterPiece(a: string, sep: char, b: string)
    requires sep !in a
    ensures Split(a + [sep] + b, sep) == [a] + Split(b, sep)
  {
    var s := a + [sep] + b;
    assert s[|a|] == sep;
    assert sep in s;
    assert s[..|a|] == a;
    var k := IndexOf(s, sep);
    assert k == |a|;
    assert s[k + 1..] == b;
  }

  /** `strings.HasPrefix(s, prefix)`. */
  predicate HasPrefix(s: string, prefix: string)
  {
    |prefix| <= |s| && s[..|prefix|] == prefix
  }

  /** The first piece of a split, followed by the separator, starts the text whenever there is a second piece. */
  lemma SplitHead(s: string, sep: char)
    requires |Split(s, sep)| >= 2
    ensures var parts := Split(s, sep);
      HasPrefix(s, parts[0] + [sep]) && Split(s[|parts[0]| + 1..], sep) == parts[1..]
  {
    var parts := Split(s, sep);
    assert sep in s;
    var k := IndexOf(s, sep);
    assert parts[0] == s[..k];
    assert s[..k + 1] == s[..k] + [sep];
  }

  /** The first piece of a split starts the text. */
  lemma SplitFirst(s: string, sep: char)
    ensures HasPrefix(s, Split(s, sep)[0])
  {
    if sep in s {
      var k := IndexOf(s, sep);
      assert Split(s, sep)[0] == s[..k];
    }
  }

  /** A prefix of a prefix is a prefix. */
  lemma PrefixOfPrefix(s: string, t: string, u: string)
    requires HasPrefix(s, t) && HasPrefix(t, u)
    ensures HasPrefix(s, u)
  {
    assert s[..|u|] == s[..|t|][..|u|];
  }

  /** A piece and its separator, then a prefix of what follows, together start the text. */
  lemma PrefixThrough(s: string, a: string, sep: char, b: string)
    requires HasPrefix(s, a + [sep]) && HasPrefix(s[|a| + 1..], b)
    ensures HasPrefix(s, a + [sep] + b)
  {
    assert s[..|a| + 1 + |b|] == s[..|a| + 1] + s[|a| + 1..][..|b|];
  }

  lemma JoinThreeAssoc(a: string, b: string, c: string, sep: char)
    ensures a + [sep] + (b + [sep] + c) == a + [sep] + b + [sep] + c
  {
  }

  /** `strings.HasSuffix(s, suffix)`. */
  predicate HasSuffix(s: string, suffix: string)
  {
    |suffix| <= |s| && s[|s| - |suffix|..] == suffix
  }

  predicate IsLowerAscii(c: char) { 'a' <= c <= 'z' }

  predicate IsUpperAscii(c: char) { 'A' <= c <= 'Z' }

  predicate IsDecimalDigit(c: char) { '0' <= c <= '9' }

  function LowerChar(c: char): char
  {
    if IsUpperAscii(c) then (c as int - 'A' as int + 'a' as int) as char else c
  }

  function UpperChar(c: char): char
  {
    if IsLowerAscii(c) then (c as int - 'a' as int + 'A' as int) as char else c
  }

  /** `strings.ToLower` on ASCII text: upper-case letters become lower-case, nothing else changes. */
  function ToLower(s: string): (r: string)
    ensures |r| == |s|
    ensures forall i :: 0 <= i < |s| ==> !IsUpperAscii(r[i])
    ensures forall i :: 0 <= i < |s| ==> UpperChar(r[i]) == UpperChar(s[i])
  {
    seq(|s|, i requires 0 <= i < |s| => LowerChar(s[i]))
  }

  /** `strings.ToUpper` on ASCII text: lower-case letters become upper-case, nothing else changes. */
  function ToUpper(s: string): (r: string)
    ensures |r| == |s|
    ensures forall i :: 0 <= i < |s| ==> !IsLowerAscii(r[i])
    ensures forall i :: 0 <= i < |s| ==> LowerChar(r[i]) == LowerChar(s[i])
  {
    seq(|s|, i requires 0 <= i < |s| => UpperChar(s[i]))
  }

  /** Upper-casing ignores the case the text was in. */
  lemma UpperOfLower(s: string)
    ensures ToUpper(ToLower(s)) == ToUpper(s)
  {
  }

  /** Upper-casing undoes lower-casing on text that had no lower-case letter. */
  lemma UpperUndoesLower(s: string)
    requires forall i :: 0 <= i < |s| ==> !IsLowerAscii(s[i])
    ensures ToUpper(ToLower(s)) == s
  {
  }
}
