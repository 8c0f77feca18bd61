/** The Python string operations the auditor relies on: str.isspace,
    strip/lstrip/rstrip, str.find and `in`, `split(c)[0]`, and the way a
    text-mode file is read (universal newlines) and iterated line by line. */
module Text {

  /** Python's `c.isspace()`: the Unicode whitespace characters. */
  predicate IsSpace(c: char) {
    || ('\t' <= c <= '\r')
    || ('\U{1C}' <= c <= '\U{1F}')
    || c == ' '
    || c == '\U{85}'
    || c == '\U{A0}'
    || c == '\U{1680}'
    || ('\U{2000}' <= c <= '\U{200A}')
    || c == '\U{2028}'
    || c == '\U{2029}'
    || c == '\U{202F}'
    || c == '\U{205F}'
    || c == '\U{3000}'
  }

  /** No whitespace at either end. */
  predicate Trimmed(s: string) {
    s == [] || (!IsSpace(s[0]) && !IsSpace(s[|s| - 1]))
  }

  /** `s.lstrip()`: drops leading whitespace, and only that. */
  function LStrip(s: string): (r: string)
    ensures |r| <= |s| && r == s[|s| - |r|..]
    ensures r == [] || !IsSpace(r[0])
    ensures forall i :: 0 <= i < |s| - |r| ==> IsSpace(s[i])
  {
    if s != [] && IsSpace(s[0]) then LStrip(s[1..]) else s
  }

  /** `s.rstrip()`: drops trailing whitespace, and only that. */
  function RStrip(s: string): (r: string)
    ensures |r| <= |s| && r == s[..|r|]
    ensures r == [] || !IsSpace(r[|r| - 1])
    ensures forall i :: |r| <= i < |s| ==> IsSpace(s[i])
  {
    if s != [] && IsSpace(s[|s| - 1]) then RStrip(s[..|s| - 1]) else s
  }

  /** `rstrip` drops a trailing whitespace character. */
  lemma RStripSpace(s: string, c: char)
    requires IsSpace(c)
    ensures RStrip(s + [c]) == RStrip(s)
  {
    var t := s + [c];
    assert t[..|t| - 1] == s;
  }

  /** `s.strip()`: the result is a middle slice of `s` with only whitespace
      cut on either side, it has no surrounding whitespace, and a trimmed
      string is left as it is. */
  function Strip(s: string): (r: string)
    ensures exists i, j :: 0 <= i <= j <= |s| && r == s[i..j] && StripsTo(s, i, j)
    ensures Trimmed(r)
    ensures forall c :: c in r ==> c in s
    ensures Trimmed(s) ==> r == s
  {
    var l := LStrip(s);
    var r := RStrip(l);
    assert r != [] ==> r[0] == l[0];
    SliceChars(l, 0, |r|);
    SliceChars(s, |s| - |l|, |s|);
    StripSlice(s, l, r);
    r
  }

  /** Everything of `s` outside `s[i..j]` is whitespace. */
  predicate StripsTo(s: string, i: nat, j: nat)
    requires i <= j <= |s|
  {
    && (forall k :: 0 <= k < i ==> IsSpace(s[k]))
    && (forall k :: j <= k < |s| ==> IsSpace(s[k]))
  }

  /** `l` is `s` with leading whitespace cut, `r` is `l` with trailing
      whitespace cut: together a middle slice of `s`. */
  lemma StripSlice(s: string, l: string, r: string)
    requires |l| <= |s| && l == s[|s| - |l|..]
    requires forall k :: 0 <= k < |s| - |l| ==> IsSpace(s[k])
    requires |r| <= |l| && r == l[..|r|]
    requires forall k :: |r| <= k < |l| ==> IsSpace(l[k])
    ensures exists i, j :: 0 <= i <= j <= |s| && r == s[i..j] && StripsTo(s, i, j)
  {
    var i := |s| - |l|;
    var j := i + |r|;
    PrefixOfSuffix(s, i, |r|);
    forall k | j <= k < |s|
      ensures IsSpace(s[k])
    {
      assert s[k] == l[k - i];
    }
    assert StripsTo(s, i, j);
  }

  /** A prefix of a suffix is a middle slice. */
  lemma PrefixOfSuffix<T>(s: seq<T>, i: nat, n: nat)
    requires i + n <= |s|
    ensures s[i..][..n] == s[i..i + n]
  {
  }

  /** The head and the tail of a concatenation with a non-empty front. */
  lemma ConsAppend<T>(a: seq<T>, b: seq<T>)
    requires a != []
    ensures (a + b)[0] == a[0] && (a + b)[1..] == a[1..] + b
  {
  }

  /** Cutting a concatenation inside its front part. */
  lemma SplitAppend<T>(a: seq<T>, b: seq<T>, k: nat)
    requires k <= |a|
    ensures (a + b)[..k] == a[..k] && (a + b)[k..] == a[k..] + b
  {
  }

  lemma InConcat<T>(a: seq<T>, b: seq<T>, x: T)
    ensures x in a + b <==> x in a || x in b
  {
  }

  /** Every element of a non-empty sequence is its head or in its tail. */
  lemma HeadOrTail<T>(s: seq<T>, x: T)
    requires s != []
    ensures x in s <==> x == s[0] || x in s[1..]
  {
    assert s == [s[0]] + s[1..];
  }

  lemma Assoc<T>(x: seq<T>, y: seq<T>, z: seq<T>)
    ensures x + (y + z) == (x + y) + z
  {
  }

  lemma SliceChars(s: string, i: nat, j: nat)
    requires i <= j <= |s|
    ensures forall c :: c in s[i..j] ==> c in s
  {
    forall c | c in s[i..j]
      ensures c in s
    {
      var k :| 0 <= k < j - i && s[i..j][k] == c;
      assert s[i + k] == c;
    }
  }

  predicate StartsWith(s: string, p: string) {
    |p| <= |s| && s[..|p|] == p
  }

  /** `p` occurs in `s` at index `i`. */
  predicate MatchAt(s: string, p: string, i: nat) {
    i + |p| <= |s| && s[i..i + |p|] == p
  }

  /** Python's `s.find(p, from)`: the lowest index at or after `from`
      where `p` occurs, or -1. */
  function Find(s: string, p: string, from: nat): (r: int)
    ensures r == -1 || (from <= r && MatchAt(s, p, r))
    ensures r != -1 ==> forall j :: from <= j < r ==> !MatchAt(s, p, j)
    ensures r == -1 ==> forall j :: from <= j ==> !MatchAt(s, p, j)
    decreases |s| - from
  {
    if from + |p| > |s| then -1
    else if s[from..from + |p|] == p then from
    else Find(s, p, from + 1)
  }

  /** Python's `p in s`. */
  predicate Contains(s: string, p: string) {
    Find(s, p, 0) != -1
  }

  lemma ContainsIff(s: string, p: string)
    ensures Contains(s, p) <==> exists i :: MatchAt(s, p, i)
  {
    if Contains(s, p) {
      assert MatchAt(s, p, Find(s, p, 0) as nat);
    }
  }

  /** `s.split(c)[0]`: the part of `s` before its first `c`. */
  function Before(s: string, c: char): (r: string)
    ensures StartsWith(s, r)
    ensures c !in r
    ensures r == s || s[|r|] == c
  {
    if s == [] || s[0] == c then [] else [s[0]] + Before(s[1..], c)
  }

  /** What a text-mode read yields: "\r\n" and a lone "\r" become "\n". */
  function Universal(t: string): (r: string)
    ensures '\r' !in r
  {
    if t == [] then []
    else if t[0] == '\r' then "\n" + Universal(if |t| > 1 && t[1] == '\n' then t[2..] else t[1..])
    else [t[0]] + Universal(t[1..])
  }

  /** Length of the first line of `t`, its '\n' included. */
  function LineLength(t: string): (k: nat)
    requires t != []
    ensures 0 < k <= |t|
    ensures '\n' !in t[..k - 1]
    ensures t[k - 1] == '\n' || k == |t|
  {
    if t[0] == '\n' || |t| == 1 then 1
    else
      var k := 1 + LineLength(t[1..]);
      assert t[..k - 1] == [t[0]] + t[1..][..k - 2];
      k
  }

  /** The lines that iterating over a file yields: each keeps its '\n',
      and a last fragment without one is a line too. */
  function Lines(t: string): (ls: seq<string>)
    ensures forall i :: 0 <= i < |ls| ==> ls[i] != []
    decreases |t|
  {
    if t == [] then [] else
    var k := LineLength(t);
    [t[..k]] + Lines(t[k..])
  }

  /** Ends with a newline, or is empty. */
  predicate NewlineTerminated(t: string) {
    t == [] || t[|t| - 1] == '\n'
  }

  lemma {:induction false} LineLengthAppend(t: string, u: string)
    requires t != [] && t[|t| - 1] == '\n'
    ensures LineLength(t + u) == LineLength(t)
  {
    if t[0] != '\n' && |t| > 1 {
      assert (t + u)[1..] == t[1..] + u;
      LineLengthAppend(t[1..], u);
    }
  }

  lemma {:induction false} LinesAppend(t: string, u: string)
    requires NewlineTerminated(t)
    ensures Lines(t + u) == Lines(t) + Lines(u)
    decreases |t|
  {
    if t == [] {
      assert t + u == u;
    } else {
      var k := LineLength(t);
      LineLengthAppend(t, u);
      SplitAppend(t, u, k);
      assert NewlineTerminated(t[k..]);
      LinesAppend(t[k..], u);
      Assoc([t[..k]], Lines(t[k..]), Lines(u));
    }
  }

  lemma {:induction false} LineLengthOfLine(n: string)
    requires '\n' !in n
    ensures LineLength(n + "\n") == |n| + 1
  {
    if n != [] {
      assert (n + "\n")[1..] == n[1..] + "\n";
      LineLengthOfLine(n[1..]);
    }
  }

  /** A line without an inner newline, followed by '\n', is one line. */
  lemma LinesOfLine(n: string)
    requires '\n' !in n
    ensures Lines(n + "\n") == [n + "\n"]
  {
    LineLengthOfLine(n);
    var t := n + "\n";
    assert t[..|n| + 1] == t;
    assert t[|n| + 1..] == [];
    assert Lines(t) == [t[..|n| + 1]] + Lines(t[|n| + 1..]);
  }

  lemma {:induction false} UniversalAppend(t: string, u: string)
    requires t == [] || t[|t| - 1] != '\r'
    ensures Universal(t + u) == Universal(t) + Universal(u)
    decreases |t|
  {
    if t == [] {
      assert t + u == u;
    } else if t[0] == '\r' {
      assert |t| > 1;
      assert (t + u)[1] == t[1];
      var k := if t[1] == '\n' then 2 else 1;
      SplitAppend(t, u, k);
      UniversalAppend(t[k..], u);
      Assoc("\n", Universal(t[k..]), Universal(u));
    } else {
      SplitAppend(t, u, 1);
      UniversalAppend(t[1..], u);
      Assoc([t[0]], Universal(t[1..]), Universal(u));
    }
  }

  /** Text without '\r' reads back unchanged. */
  lemma {:induction false} UniversalPlain(u: string)
    requires '\r' !in u
    ensures Universal(u) == u
  {
    if u != [] {
      UniversalPlain(u[1..]);
    }
  }

  lemma {:induction false} UniversalNewlineTerminated(t: string)
    requires NewlineTerminated(t)
    ensures NewlineTerminated(Universal(t))
    decreases |t|
  {
    if t != [] {
      var rest := if t[0] == '\r' && |t| > 1 && t[1] == '\n' then t[2..] else t[1..];
      if rest != [] {
        UniversalNewlineTerminated(rest);
      }
    }
  }
}
