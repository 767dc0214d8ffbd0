/**
  The string operations of JavaScript the dashboards rely on: `String.prototype.trim`,
  `startsWith`, `split` on the two-character separator "||", `Array.prototype.join`
  and the first-occurrence de-duplication `Array.from(new Set(xs))`.
 */
module Text {

  /** The characters `trim` removes: ECMAScript WhiteSpace (tab, vertical tab, form feed,
      space, no-break space, byte-order mark and the Unicode space separators) and
      LineTerminator (line feed, carriage return, line and paragraph separators). */
  predicate IsWhitespace(c: char)
  {
    || c == '\t' || c == '\n' || c == '\U{000B}' || c == '\U{000C}' || c == '\r'
    || c == ' ' || c == '\U{00A0}' || c == '\U{1680}'
    || ('\U{2000}' <= c <= '\U{200A}')
    || c == '\U{2028}' || c == '\U{2029}' || c == '\U{202F}' || c == '\U{205F}'
    || c == '\U{3000}' || c == '\U{FEFF}'
  }

  /** Leading whitespace removed. */
  function TrimStart(s: string): (r: string)
    ensures |r| <= |s| && r == s[|s| - |r|..]
    ensures r == [] || !IsWhitespace(r[0])
    ensures forall i :: 0 <= i < |s| - |r| ==> IsWhitespace(s[i])
  {
    if s != [] && IsWhitespace(s[0]) then TrimStart(s[1..]) else s
  }

  /** Trailing whitespace removed. */
  function TrimEnd(s: string): (r: string)
    ensures |r| <= |s| && r == s[..|r|]
    ensures r == [] || !IsWhitespace(r[|r| - 1])
    ensures forall i :: |r| <= i < |s| ==> IsWhitespace(s[i])
  {
    if s != [] && IsWhitespace(s[|s| - 1]) then TrimEnd(s[..|s| - 1]) else s
  }

  /** `s.trim()`. */
  function Trim(s: string): string
  {
    TrimEnd(TrimStart(s))
  }

  /** Whether r is s[i..i + |r|] with nothing but whitespace before and after it. */
  ghost predicate MiddleOf(s: string, i: int, r: string)
  {
    && 0 <= i <= |s| - |r|
    && r == s[i..i + |r|]
    && (forall k :: 0 <= k < i ==> IsWhitespace(s[k]))
    && (forall k :: i + |r| <= k < |s| ==> IsWhitespace(s[k]))
  }

  /** `trim` keeps a contiguous middle part of its input that neither starts nor ends with
      whitespace, and everything it drops is whitespace. */
  lemma TrimIsMiddle(s: string)
    ensures exists i :: MiddleOf(s, i, Trim(s))
    ensures Trim(s) == [] || (!IsWhitespace(Trim(s)[0]) && !IsWhitespace(Trim(s)[|Trim(s)| - 1]))
  {
    var t := TrimStart(s);
    var r := TrimEnd(t);
    var i := |s| - |t|;
    assert r == s[i..i + |r|];
    TrimDropsTail(s, t, r, i);
    assert MiddleOf(s, i, r);
    TrimEnds(s);
  }

  /** What `trimEnd` drops from the trimmed start is the tail of the input. */
  lemma TrimDropsTail(s: string, t: string, r: string, i: int)
    requires t == TrimStart(s) && r == TrimEnd(t) && i == |s| - |t|
    ensures forall k :: i + |r| <= k < |s| ==> IsWhitespace(s[k])
  {
    assert t == s[i..];
    forall k | i + |r| <= k < |s|
      ensures IsWhitespace(s[k])
    {
      assert s[k] == t[k - i];
    }
  }

  /** The trimmed string starts and ends with a character that is not whitespace. */
  lemma TrimEnds(s: string)
    ensures Trim(s) == [] || (!IsWhitespace(Trim(s)[0]) && !IsWhitespace(Trim(s)[|Trim(s)| - 1]))
  {
    var t := TrimStart(s);
    var r := TrimEnd(t);
    if r != [] {
      assert r[0] == t[0];
    }
  }

  /** A string with no whitespace at either end is its own trim. */
  lemma TrimFixed(s: string)
    requires s == [] || (!IsWhitespace(s[0]) && !IsWhitespace(s[|s| - 1]))
    ensures Trim(s) == s
  {
  }

  /** Whether s[i] and s[i + 1] form the separator "||". */
  predicate SeparatorAt(s: string, i: int)
  {
    0 <= i && i + 1 < |s| && s[i] == '|' && s[i + 1] == '|'
  }

  /** Whether "||" occurs in s. */
  ghost predicate HasSeparator(s: string)
  {
    exists i :: SeparatorAt(s, i)
  }

  /** The first occurrence of "||" at or after k, or |s| when there is none. */
  function FindSeparator(s: string, k: nat): (i: nat)
    requires k <= |s|
    ensures k <= i <= |s|
    ensures i < |s| ==> SeparatorAt(s, i)
    ensures forall j :: k <= j < i ==> !SeparatorAt(s, j)
    decreases |s| - k
  {
    if k + 1 >= |s| then |s|
    else if SeparatorAt(s, k) then k
    else FindSeparator(s, k + 1)
  }

  /** `s.split('||')`: the pieces between successive left-to-right occurrences of "||". */
  function Split(s: string): (parts: seq<string>)
    ensures |parts| >= 1
    decreases |s|
  {
    var i := FindSeparator(s, 0);
    if i == |s| then [s] else [s[..i]] + Split(s[i + 2..])
  }

  /** No piece of a split contains the separator. */
  lemma {:induction false} SplitPiecesClean(s: string)
    ensures forall k :: 0 <= k < |Split(s)| ==> !HasSeparator(Split(s)[k])
    decreases |s|
  {
    var i := FindSeparator(s, 0);
    if i < |s| {
      SplitPiecesClean(s[i + 2..]);
      assert forall j :: SeparatorAt(s[..i], j) ==> SeparatorAt(s, j);
      assert Split(s) == [s[..i]] + Split(s[i + 2..]);
    }
  }

  /** `parts.join(sep)`. */
  function Join(parts: seq<string>, sep: string): (r: string)
    ensures parts == [] ==> r == ""
    ensures |parts| == 1 ==> r == parts[0]
    ensures parts != [] ==> parts[0] <= r
  {
    if parts == [] then ""
    else if |parts| == 1 then parts[0]
    else Join(parts[..|parts| - 1], sep) + sep + parts[|parts| - 1]
  }

  /** Joining one more piece in front adds it and the separator at the front. */
  lemma {:induction false} JoinCons(a: string, ps: seq<string>, sep: string)
    requires ps != []
    ensures Join([a] + ps, sep) == a + sep + Join(ps, sep)
  {
    var q := [a] + ps;
    var n := |ps| - 1;
    assert q[..|q| - 1] == [a] + ps[..n];
    assert Join(q, sep) == Join([a] + ps[..n], sep) + sep + ps[n];
    if n == 0 {
      assert Join([a], sep) == a;
      assert Join(ps, sep) == ps[0];
    } else {
      JoinCons(a, ps[..n], sep);
      assert Join(ps, sep) == Join(ps[..n], sep) + sep + ps[n];
      assert Join(q, sep) == (a + sep + Join(ps[..n], sep)) + sep + ps[n];
    }
  }

  /** `s.split('||').join('||')` gives s back: the pieces are exactly what lies between the
      separators. */
  lemma {:induction false} JoinSplit(s: string)
    ensures Join(Split(s), "||") == s
    decreases |s|
  {
    var i := FindSeparator(s, 0);
    if i < |s| {
      var rest := s[i + 2..];
      JoinSplit(rest);
      JoinCons(s[..i], Split(rest), "||");
      assert s == s[..i] + "||" + rest;
    }
  }

  /** The pieces of `a + "||" + rest` when a has no "||" and does not end in '|':
      first a, then the pieces of rest. */
  lemma {:induction false} SplitAfterField(a: string, rest: string)
    requires !HasSeparator(a)
    requires a == [] || a[|a| - 1] != '|'
    ensures Split(a + "||" + rest) == [a] + Split(rest)
  {
    var s := a + "||" + rest;
    assert SeparatorAt(s, |a|);
    forall j | 0 <= j < |a|
      ensures !SeparatorAt(s, j)
    {
      if j + 1 < |a| {
        assert !SeparatorAt(a, j);
        assert s[j] == a[j] && s[j + 1] == a[j + 1];
      } else {
        assert s[j] == a[j];
      }
    }
    var i := FindSeparator(s, 0);
    assert i == |a|;
    assert s[..i] == a;
    assert s[i + 2..] == rest;
  }

  /** A string without "||" splits into itself alone. */
  lemma SplitWhole(s: string)
    requires !HasSeparator(s)
    ensures Split(s) == [s]
  {
  }

  /** `Array.from(new Set(xs))`: the distinct members of xs in order of first occurrence. */
  function Dedup(xs: seq<string>): (r: seq<string>)
    ensures forall x :: x in r <==> x in xs
    ensures forall i, j :: 0 <= i < j < |r| ==> r[i] != r[j]
  {
    if xs == [] then []
    else
      var d := Dedup(xs[..|xs| - 1]);
      assert forall x :: x in xs <==> x in xs[..|xs| - 1] || x == xs[|xs| - 1];
      if xs[|xs| - 1] in d then d else d + [xs[|xs| - 1]]
  }

  /** The index of the first occurrence of x in xs. */
  function FirstIndex<T(==)>(xs: seq<T>, x: T): (i: nat)
    requires x in xs
    ensures i < |xs| && xs[i] == x
    ensures forall j :: 0 <= j < i ==> xs[j] != x
  {
    if xs[0] == x then 0 else 1 + FirstIndex(xs[1..], x)
  }

  /** The distinct members come out in the order of their first occurrence. */
  lemma {:induction false} DedupFirstOccurrenceOrder(xs: seq<string>, i: int, j: int)
    requires 0 <= i < j < |Dedup(xs)|
    ensures FirstIndex(xs, Dedup(xs)[i]) < FirstIndex(xs, Dedup(xs)[j])
  {
    var n := |xs| - 1;
    var init := xs[..n];
    var d := Dedup(init);
    var r := Dedup(xs);
    FirstIndexPrefix(xs, init, r[i]);
    if j < |d| {
      assert r[i] == d[i] && r[j] == d[j];
      DedupFirstOccurrenceOrder(init, i, j);
      FirstIndexPrefix(xs, init, r[j]);
    } else {
      assert r[j] == xs[n] && xs[n] !in init;
      assert FirstIndex(xs, r[j]) == n;
    }
  }

  /** In a list that extends another, a member of the shorter has the same first index. */
  lemma FirstIndexPrefix<T>(xs: seq<T>, init: seq<T>, x: T)
    requires init <= xs && x in init
    ensures FirstIndex(xs, x) == FirstIndex(init, x)
  {
    var k := FirstIndex(init, x);
    assert xs[k] == x;
    assert forall j :: 0 <= j < k ==> xs[j] == init[j];
  }
}
