/** The parts of Go's `strings` package the gateway relies on, over ASCII text. */
module Text {
  import opened Options

  const SPACE: set<char> := {' ', '\t', '\n', '\r', '\U{0B}', '\U{0C}'}

  predicate HasSuffix(s: string, t: string) {
    |t| <= |s| && s[|s| - |t|..] == t
  }

  function IndexOf(s: string, c: char): (r: Option<nat>)
    ensures r.Some? ==> r.value < |s|
  {
    if s == [] then None
    else if s[0] == c then Some(0)
    else match IndexOf(s[1..], c)
      case None => None
      case Some(i) => Some(i + 1)
  }

  function LastIndexOf(s: string, c: char): (r: Option<nat>)
    ensures r.Some? ==> r.value < |s|
  {
    if s == [] then None
    else if s[|s| - 1] == c then Some(|s| - 1)
    else LastIndexOf(s[..|s| - 1], c)
  }

  ghost predicate Lacks(s: string, c: char) {
    forall i :: 0 <= i < |s| ==> s[i] != c
  }

  lemma {:induction false} IndexOfIs(before: string, c: char, after: string)
    requires Lacks(before, c)
    ensures IndexOf(before + [c] + after, c) == Some(|before|)
  {
    if before != [] {
      assert (before + [c] + after)[1..] == before[1..] + [c] + after;
      IndexOfIs(before[1..], c, after);
    }
  }

  lemma {:induction false} IndexOfFirst(s: string, c: char)
    requires IndexOf(s, c).Some?
    ensures var i := IndexOf(s, c).value; s[i] == c && Lacks(s[..i], c)
  {
    if s[0] != c {
      IndexOfFirst(s[1..], c);
    }
  }

  lemma {:induction false} LastIndexOfIs(before: string, c: char, after: string)
    requires Lacks(after, c)
    ensures LastIndexOf(before + [c] + after, c) == Some(|before|)
  {
    var s := before + [c] + after;
    if after != [] {
      assert s[..|s| - 1] == before + [c] + after[..|after| - 1];
      LastIndexOfIs(before, c, after[..|after| - 1]);
    }
  }

  lemma {:induction false} LastIndexOfNone(s: string, c: char)
    requires Lacks(s, c)
    ensures LastIndexOf(s, c) == None
  {
    if s != [] {
      LastIndexOfNone(s[..|s| - 1], c);
    }
  }

  function LowerChar(c: char): char {
    if 'A' <= c <= 'Z' then (c as int + 32) as char else c
  }

  function Lower(s: string): (r: string)
    ensures |r| == |s| && forall i :: 0 <= i < |s| ==> r[i] == LowerChar(s[i])
  {
    seq(|s|, i requires 0 <= i < |s| => LowerChar(s[i]))
  }

  function TrimLeft(s: string, cut: set<char>): (r: string)
    ensures |r| <= |s|
  {
    if s != [] && s[0] in cut then TrimLeft(s[1..], cut) else s
  }

  function TrimRight(s: string, cut: set<char>): (r: string)
    ensures |r| <= |s|
  {
    if s != [] && s[|s| - 1] in cut then TrimRight(s[..|s| - 1], cut) else s
  }

  function Trim(s: string, cut: set<char>): (r: string)
    ensures |r| <= |s|
  {
    TrimRight(TrimLeft(s, cut), cut)
  }

  ghost predicate AllIn(s: string, cut: set<char>) {
    forall i :: 0 <= i < |s| ==> s[i] in cut
  }

  ghost predicate NoneIn(s: string, cut: set<char>) {
    forall i :: 0 <= i < |s| ==> s[i] !in cut
  }

  lemma {:induction false} ConcatAssoc<T>(a: seq<T>, b: seq<T>, c: seq<T>)
    ensures a + b + c == a + (b + c)
  {
  }

  lemma {:induction false} NoneInConcat(a: string, b: string, cut: set<char>)
    requires NoneIn(a, cut) && NoneIn(b, cut)
    ensures NoneIn(a + b, cut)
  {
  }

  lemma {:induction false} LacksConcat(a: string, b: string, c: char)
    requires Lacks(a, c) && Lacks(b, c)
    ensures Lacks(a + b, c)
  {
  }

  lemma {:induction false} TrimLeftPadding(pad: string, s: string, cut: set<char>)
    requires AllIn(pad, cut)
    requires s == [] || s[0] !in cut
    ensures TrimLeft(pad + s, cut) == s
  {
    if pad == [] {
      assert pad + s == s;
    } else {
      assert (pad + s)[1..] == pad[1..] + s;
      TrimLeftPadding(pad[1..], s, cut);
    }
  }

  lemma {:induction false} TrimRightPadding(s: string, pad: string, cut: set<char>)
    requires AllIn(pad, cut)
    requires s == [] || s[|s| - 1] !in cut
    ensures TrimRight(s + pad, cut) == s
  {
    if pad == [] {
      assert s + pad == s;
    } else {
      assert (s + pad)[..|s + pad| - 1] == s + pad[..|pad| - 1];
      TrimRightPadding(s, pad[..|pad| - 1], cut);
    }
  }

  /** Trimming removes exactly the surrounding run of cut characters. */
  lemma {:induction false} TrimPadding(left: string, s: string, right: string, cut: set<char>)
    requires AllIn(left, cut) && AllIn(right, cut)
    requires NoneIn(s, cut)
    ensures Trim(left + s + right, cut) == s
  {
    if s == [] {
      assert left + s + right == (left + right) + [];
      assert AllIn(left + right, cut);
      TrimLeftPadding(left + right, [], cut);
    } else {
      assert left + s + right == left + (s + right);
      TrimLeftPadding(left, s + right, cut);
      TrimRightPadding(s, right, cut);
    }
  }

  lemma {:induction false} TrimNothing(s: string, cut: set<char>)
    requires NoneIn(s, cut)
    ensures Trim(s, cut) == s
  {
    TrimPadding("", s, "", cut);
    assert "" + s + "" == s;
  }

  lemma {:induction false} LowerConcat(a: string, b: string)
    ensures Lower(a + b) == Lower(a) + Lower(b)
  {
  }

  lemma {:induction false} LowerIdempotent(s: string)
    ensures Lower(Lower(s)) == Lower(s)
  {
  }

  /********** Letter case **********/

  /** The k-th capital and the k-th small letter, for some k. */
  predicate CapitalOf(big: char, small: char) {
    exists k :: 0 <= k < 26 && big == "ABCDEFGHIJKLMNOPQRSTUVWXYZ"[k] && small == "abcdefghijklmnopqrstuvwxyz"[k]
  }

  /** The texts differ in the case of letters only. */
  predicate SameButCase(s: string, t: string) {
    |s| == |t| &&
    forall i :: 0 <= i < |s| ==> s[i] == t[i] || CapitalOf(s[i], t[i]) || CapitalOf(t[i], s[i])
  }

  ghost predicate NoCapitals(s: string) {
    forall i :: 0 <= i < |s| ==> s[i] !in "ABCDEFGHIJKLMNOPQRSTUVWXYZ"
  }

  lemma {:induction false} Capital(k: nat)
    requires k < 26
    ensures "ABCDEFGHIJKLMNOPQRSTUVWXYZ"[k] == ('A' as int + k) as char
    ensures "abcdefghijklmnopqrstuvwxyz"[k] == ('a' as int + k) as char
  {
  }

  lemma {:induction false} CapitalLowered(big: char, small: char)
    requires CapitalOf(big, small)
    ensures LowerChar(big) == small && LowerChar(small) == small
  {
    var k :| 0 <= k < 26 && big == "ABCDEFGHIJKLMNOPQRSTUVWXYZ"[k] && small == "abcdefghijklmnopqrstuvwxyz"[k];
    Capital(k);
  }

  lemma {:induction false} NotCapital(c: char)
    ensures LowerChar(c) !in "ABCDEFGHIJKLMNOPQRSTUVWXYZ"
  {
    if LowerChar(c) in "ABCDEFGHIJKLMNOPQRSTUVWXYZ" {
      var k :| 0 <= k < 26 && "ABCDEFGHIJKLMNOPQRSTUVWXYZ"[k] == LowerChar(c);
      Capital(k);
    }
  }

  /** Lower case forgets exactly the case of letters. */
  lemma {:induction false} LowerForgetsCase(s: string, t: string)
    requires SameButCase(s, t)
    ensures Lower(s) == Lower(t)
  {
    forall i | 0 <= i < |s| ensures LowerChar(s[i]) == LowerChar(t[i]) {
      if CapitalOf(s[i], t[i]) {
        CapitalLowered(s[i], t[i]);
      } else if CapitalOf(t[i], s[i]) {
        CapitalLowered(t[i], s[i]);
      }
    }
  }

  lemma {:induction false} LowerNoCapitals(s: string)
    ensures NoCapitals(Lower(s))
  {
    forall i | 0 <= i < |s| ensures Lower(s)[i] !in "ABCDEFGHIJKLMNOPQRSTUVWXYZ" {
      NotCapital(s[i]);
    }
  }

  /** No letter is in the set. */
  ghost predicate Caseless(cut: set<char>) {
    forall c :: LowerChar(c) in cut <==> c in cut
  }

  lemma {:induction false} TrimLeftLower(s: string, cut: set<char>)
    requires Caseless(cut)
    ensures TrimLeft(Lower(s), cut) == Lower(TrimLeft(s, cut))
  {
    if s != [] && s[0] in cut {
      assert Lower(s)[1..] == Lower(s[1..]);
      TrimLeftLower(s[1..], cut);
    }
  }

  lemma {:induction false} TrimRightLower(s: string, cut: set<char>)
    requires Caseless(cut)
    ensures TrimRight(Lower(s), cut) == Lower(TrimRight(s, cut))
  {
    if s != [] && s[|s| - 1] in cut {
      assert Lower(s)[..|s| - 1] == Lower(s[..|s| - 1]);
      TrimRightLower(s[..|s| - 1], cut);
    }
  }

  lemma {:induction false} TrimLower(s: string, cut: set<char>)
    requires Caseless(cut)
    ensures Trim(Lower(s), cut) == Lower(Trim(s, cut))
  {
    TrimLeftLower(s, cut);
    TrimRightLower(TrimLeft(s, cut), cut);
  }

  lemma {:induction false} TrimEnds(s: string, cut: set<char>)
    ensures var t := Trim(s, cut); t != "" ==> t[0] !in cut && t[|t| - 1] !in cut
  {
    TrimLeftEnd(s, cut);
    TrimRightEnd(TrimLeft(s, cut), cut);
    var j := TrimRightSlices(TrimLeft(s, cut), cut);
  }

  lemma {:induction false} TrimLeftEnd(s: string, cut: set<char>)
    ensures var t := TrimLeft(s, cut); t != "" ==> t[0] !in cut
  {
    if s != [] && s[0] in cut {
      TrimLeftEnd(s[1..], cut);
    }
  }

  lemma {:induction false} TrimRightEnd(s: string, cut: set<char>)
    ensures var t := TrimRight(s, cut); t != "" ==> t[|t| - 1] !in cut
  {
    if s != [] && s[|s| - 1] in cut {
      TrimRightEnd(s[..|s| - 1], cut);
    }
  }

  lemma {:induction false} TrimSlices(s: string, cut: set<char>) returns (i: nat, j: nat)
    ensures i <= j <= |s| && Trim(s, cut) == s[i..j]
  {
    i := TrimLeftSlices(s, cut);
    j := TrimRightSlices(TrimLeft(s, cut), cut);
    assert s[i..][..j] == s[i..i + j];
    j := i + j;
  }

  lemma {:induction false} TrimLeftSlices(s: string, cut: set<char>) returns (i: nat)
    ensures i <= |s| && TrimLeft(s, cut) == s[i..]
  {
    i := 0;
    if s != [] && s[0] in cut {
      i := TrimLeftSlices(s[1..], cut);
      assert s[1..][i..] == s[i + 1..];
      i := i + 1;
    }
  }

  lemma {:induction false} TrimRightSlices(s: string, cut: set<char>) returns (j: nat)
    ensures j <= |s| && TrimRight(s, cut) == s[..j]
  {
    j := |s|;
    if s != [] && s[|s| - 1] in cut {
      j := TrimRightSlices(s[..|s| - 1], cut);
      assert s[..|s| - 1][..j] == s[..j];
    }
  }
}
