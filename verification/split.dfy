/**
  `files::split`: cut a string at every occurrence of a delimiter character.
  The source walks the string with `find`; pieces are views between
  consecutive delimiters, the last piece running to the end of the string.
*/
module Split {
  import opened Wrappers

  /** `string_view::find(d, from)`: the first index at or after `from` holding `d`. */
  function Find(s: string, d: char, from: nat): (r: Option<nat>)
    requires from <= |s|
    ensures r.Some? ==> from <= r.value < |s| && s[r.value] == d && d !in s[from..r.value]
    ensures r.None? ==> d !in s[from..]
    decreases |s| - from
  {
    if from == |s| then None
    else if s[from] == d then Some(from)
    else
      var r := Find(s, d, from + 1);
      assert r.Some? ==> s[from..r.value] == [s[from]] + s[from + 1..r.value];
      assert s[from..] == [s[from]] + s[from + 1..];
      r
  }

  /** The inverse of splitting: the pieces glued back with the delimiter between them. */
  function Join(pieces: seq<string>, d: char): string
    requires |pieces| >= 1
  {
    if |pieces| == 1 then pieces[0] else pieces[0] + [d] + Join(pieces[1..], d)
  }

  /** The loop of `split` from position `curr` onwards. */
  function SplitFrom(s: string, d: char, curr: nat): (r: seq<string>)
    requires curr <= |s|
    ensures |r| >= 1
    ensures forall i :: 0 <= i < |r| ==> d !in r[i]
    decreases |s| - curr
  {
    match Find(s, d, curr)
    case None => [s[curr..]]
    case Some(next) => [s[curr..next]] + SplitFrom(s, d, next + 1)
  }

  /** The pieces from `curr` on glue back to the rest of the string. */
  lemma {:induction false} SplitFromRejoins(s: string, d: char, curr: nat)
    requires curr <= |s|
    ensures Join(SplitFrom(s, d, curr), d) == s[curr..]
    decreases |s| - curr
  {
    match Find(s, d, curr)
    case None =>
    case Some(next) =>
      var rest := SplitFrom(s, d, next + 1);
      SplitFromRejoins(s, d, next + 1);
      assert ([s[curr..next]] + rest)[1..] == rest;
      assert s[curr..] == s[curr..next] + [d] + s[next + 1..];
  }

  /** There is one more piece from `curr` on than there are delimiters. */
  lemma {:induction false} SplitFromCount(s: string, d: char, curr: nat)
    requires curr <= |s|
    ensures |SplitFrom(s, d, curr)| == multiset(s[curr..])[d] + 1
    decreases |s| - curr
  {
    match Find(s, d, curr)
    case None =>
      assert multiset(s[curr..])[d] == 0;
    case Some(next) =>
      SplitFromCount(s, d, next + 1);
      CountAround(s, d, curr, next);
  }

  /** A delimiter at `next` with none before it from `curr` on adds one to the count. */
  lemma CountAround(s: string, d: char, curr: nat, next: nat)
    requires curr <= next < |s| && s[next] == d && d !in s[curr..next]
    ensures multiset(s[curr..])[d] == multiset(s[next + 1..])[d] + 1
  {
    assert s[curr..] == s[curr..next] + [d] + s[next + 1..];
    assert multiset(s[curr..]) == multiset(s[curr..next]) + multiset{d} + multiset(s[next + 1..]);
    assert multiset(s[curr..next])[d] == 0;
  }

  /** `split(str, delimiter)`. */
  function Split(s: string, d: char): (r: seq<string>)
    ensures |r| == multiset(s)[d] + 1
    ensures forall i :: 0 <= i < |r| ==> d !in r[i]
    ensures Join(r, d) == s
    ensures s == [] ==> r == [[]]
  {
    assert s[0..] == s;
    SplitFromRejoins(s, d, 0);
    SplitFromCount(s, d, 0);
    SplitFrom(s, d, 0)
  }

  /** Splitting a joined sequence of delimiter-free pieces gives the pieces back. */
  lemma SplitJoin(pieces: seq<string>, d: char)
    requires |pieces| >= 1
    requires forall i :: 0 <= i < |pieces| ==> d !in pieces[i]
    ensures Split(Join(pieces, d), d) == pieces
  {
    JoinInjective(Split(Join(pieces, d), d), pieces, d);
  }

  /** Joining delimiter-free pieces loses nothing: two such sequences with
      the same join are equal. */
  lemma {:induction false} JoinInjective(a: seq<string>, b: seq<string>, d: char)
    requires |a| >= 1 && |b| >= 1
    requires forall i :: 0 <= i < |a| ==> d !in a[i]
    requires forall i :: 0 <= i < |b| ==> d !in b[i]
    requires Join(a, d) == Join(b, d)
    ensures a == b
    decreases |a|
  {
    JoinHasDelimiter(a, d);
    JoinHasDelimiter(b, d);
    if |a| == 1 {
      assert |b| == 1;
    } else {
      var s := Join(a, d);
      JoinCut(a, d);
      JoinCut(b, d);
      assert |a[0]| == |b[0]|;
      assert a[0] == s[..|a[0]|] == b[0];
      JoinInjective(a[1..], b[1..], d);
      assert a == [a[0]] + a[1..];
      assert b == [b[0]] + b[1..];
    }
  }

  /** The join of delimiter-free pieces holds the delimiter exactly when
      there are at least two pieces. */
  lemma {:induction false} JoinHasDelimiter(pieces: seq<string>, d: char)
    requires |pieces| >= 1
    requires forall i :: 0 <= i < |pieces| ==> d !in pieces[i]
    ensures d in Join(pieces, d) <==> |pieces| >= 2
  {
    if |pieces| >= 2 {
      JoinCut(pieces, d);
    }
  }

  /** In a join of several pieces, the first piece comes first, then the
      delimiter, then the join of the remaining pieces. */
  lemma JoinCut(pieces: seq<string>, d: char)
    requires |pieces| >= 2
    ensures |pieces[0]| < |Join(pieces, d)|
    ensures Join(pieces, d)[..|pieces[0]|] == pieces[0]
    ensures Join(pieces, d)[|pieces[0]|] == d
    ensures Join(pieces, d)[|pieces[0]| + 1..] == Join(pieces[1..], d)
  {
    var p0, tail := pieces[0], Join(pieces[1..], d);
    assert Join(pieces, d) == p0 + [d] + tail;
  }
}
