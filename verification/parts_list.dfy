/**
  The two pure pieces of the parts list (`gui/parts_list.cpp`): the quantity
  read from a part's file name when it is added, and the removal of the
  selected rows.
*/
module PartsList {

  const IntMax: int := 0x7fff_ffff

  predicate IsDigit(c: char) {
    '0' <= c <= '9'
  }

  predicate AllDigits(s: string) {
    forall i :: 0 <= i < |s| ==> IsDigit(s[i])
  }

  /** Decimal value of a digit string, most significant digit first. */
  function DigitsValue(s: string): nat
    requires AllDigits(s)
  {
    if |s| == 0 then 0
    else DigitsValue(s[..|s| - 1]) * 10 + (s[|s| - 1] as int - '0' as int)
  }

  /** The number of consecutive digits at the end of `s`. */
  function TrailingDigits(s: string): (n: nat)
    ensures n <= |s|
    ensures AllDigits(s[|s| - n..])
    ensures n < |s| ==> !IsDigit(s[|s| - n - 1])
  {
    if |s| == 0 || !IsDigit(s[|s| - 1]) then 0
    else
      var n := TrailingDigits(s[..|s| - 1]);
      TrailingStep(s, n);
      n + 1
  }

  /** One more digit at the end extends the trailing run by one. */
  lemma TrailingStep(s: string, n: nat)
    requires 0 < |s| && n <= |s| - 1 && IsDigit(s[|s| - 1])
    requires AllDigits(s[..|s| - 1][|s| - 1 - n..])
    requires n < |s| - 1 ==> !IsDigit(s[..|s| - 1][|s| - 1 - n - 1])
    ensures AllDigits(s[|s| - (n + 1)..])
    ensures n + 1 < |s| ==> !IsDigit(s[|s| - (n + 1) - 1])
  {
    var t, u := s[..|s| - 1], s[|s| - (n + 1)..];
    forall i | 0 <= i < |u|
      ensures IsDigit(u[i])
    {
      if i < n {
        assert u[i] == t[|s| - 1 - n..][i];
      }
    }
    if n + 1 < |s| {
      assert t[|s| - 1 - n - 1] == s[|s| - n - 2];
    }
  }

  /** What `std::from_chars` leaves in an `int` initialised to -1: the value,
      or -1 untouched when the value is out of range. */
  function ParseInt(digits: string): int
    requires AllDigits(digits)
  {
    var v := DigitsValue(digits);
    if v <= IntMax then v else -1
  }

  /** The quantity lambda of `make_properties`, applied to the file stem. */
  function Quantity(name: string): int {
    var closing := |name| > 0 && name[|name| - 1] == ')';
    var core := if closing then name[..|name| - 1] else name;
    var lookingFor := if closing then '(' else '.';
    var n := TrailingDigits(core);
    if n == 0 || !(|core| > n && core[|core| - n - 1] == lookingFor) then 1
    else ParseInt(core[|core| - n..])
  }

  /** `name` ends in `.N` with the digit run starting after position `i`. */
  predicate DotForm(name: string, i: int) {
    0 <= i < |name| - 1 && name[i] == '.' && AllDigits(name[i + 1..])
  }

  /** `name` ends in `(N)` with the digit run starting after position `i`. */
  predicate ParenForm(name: string, i: int) {
    0 <= i && i + 1 < |name| - 1 && name[i] == '(' && name[|name| - 1] == ')'
    && AllDigits(name[i + 1..|name| - 1])
  }

  /** A name ending in `.N` yields N. */
  lemma QuantityDotSuffix(prefix: string, digits: string)
    requires |digits| > 0 && AllDigits(digits)
    ensures Quantity(prefix + ['.'] + digits) == ParseInt(digits)
  {
    var name := prefix + ['.'] + digits;
    assert name[|name| - 1] == digits[|digits| - 1];
    TrailingDigitsAfterStop(prefix + ['.'], digits);
    assert name[|name| - |digits|..] == digits;
  }

  /** A name ending in `(N)` yields N. */
  lemma QuantityParenSuffix(prefix: string, digits: string)
    requires |digits| > 0 && AllDigits(digits)
    ensures Quantity(prefix + ['('] + digits + [')']) == ParseInt(digits)
  {
    var name := prefix + ['('] + digits + [')'];
    assert name[..|name| - 1] == prefix + ['('] + digits;
    TrailingDigitsAfterStop(prefix + ['('], digits);
    var core := prefix + ['('] + digits;
    assert core[|core| - |digits|..] == digits;
  }

  lemma TrailingDigitsAfterStop(head: string, digits: string)
    requires |head| > 0 && !IsDigit(head[|head| - 1])
    requires AllDigits(digits)
    ensures TrailingDigits(head + digits) == |digits|
    decreases |digits|
  {
    if |digits| > 0 {
      var s := head + digits;
      assert s[..|s| - 1] == head + digits[..|digits| - 1];
      TrailingDigitsAfterStop(head, digits[..|digits| - 1]);
    } else {
      assert head + digits == head;
    }
  }

  /** Every other name, including an empty digit run or a digit run preceded
      by the wrong character, yields the default 1. */
  lemma QuantityDefault(name: string)
    ensures Quantity(name) != 1 ==> exists i :: DotForm(name, i) || ParenForm(name, i)
  {
    var closing := |name| > 0 && name[|name| - 1] == ')';
    var core := if closing then name[..|name| - 1] else name;
    var lookingFor := if closing then '(' else '.';
    var n := TrailingDigits(core);
    if n != 0 && |core| > n && core[|core| - n - 1] == lookingFor {
      var i := |core| - n - 1;
      if closing {
        assert name[i + 1..|name| - 1] == core[|core| - n..];
        assert ParenForm(name, i);
      } else {
        assert name[i + 1..] == core[|core| - n..];
        assert DotForm(name, i);
      }
    }
  }

  /** Reference definition: the rows whose selection flag is clear, in order. */
  function Unselected<T>(rows: seq<T>, selected: seq<bool>): (r: seq<T>)
    requires |rows| == |selected|
    ensures |r| <= |rows|
  {
    if |rows| == 0 then []
    else (if selected[0] then [] else [rows[0]]) + Unselected(rows[1..], selected[1..])
  }

  /** A run of unselected rows survives unchanged at the front. */
  lemma {:induction false} UnselectedRun<T>(rows: seq<T>, selected: seq<bool>, a: nat, b: nat)
    requires |rows| == |selected| && a <= b <= |rows|
    requires forall j :: a <= j < b ==> !selected[j]
    ensures Unselected(rows[a..], selected[a..]) == rows[a..b] + Unselected(rows[b..], selected[b..])
    decreases b - a
  {
    if a < b {
      assert rows[a..][1..] == rows[a + 1..];
      assert selected[a..][1..] == selected[a + 1..];
      UnselectedRun(rows, selected, a + 1, b);
      assert rows[a..b] == [rows[a]] + rows[a + 1..b];
    }
  }

  /** The first loop of `delete_selected`: the selected indices, ascending. */
  method SelectedIndices(selected: seq<bool>) returns (indices: seq<nat>)
    ensures IndicesOf(selected, indices)
  {
    indices := [];
    var i := 0;
    while i < |selected|
      invariant 0 <= i <= |selected|
      invariant forall k :: 0 <= k < |indices| ==> indices[k] < i && selected[indices[k]]
      invariant forall k, m :: 0 <= k < m < |indices| ==> indices[k] < indices[m]
      invariant forall j :: 0 <= j < i && selected[j] ==> j in indices
    {
      if selected[i] {
        indices := indices + [i];
      }
      i := i + 1;
    }
  }

  /** Erasing a selected row `at` that is followed by unselected rows up to `t`. */
  lemma EraseStep<T>(properties: seq<T>, selected: seq<bool>, props: seq<T>, at: nat, t: nat)
    requires |properties| == |selected| && at < t <= |properties|
    requires selected[at]
    requires forall j :: at < j < t ==> !selected[j]
    requires props == properties[..t] + Unselected(properties[t..], selected[t..])
    ensures props[..at] + props[at + 1..] == properties[..at] + Unselected(properties[at..], selected[at..])
  {
    UnselectedRun(properties, selected, at + 1, t);
    assert properties[at..][1..] == properties[at + 1..];
    assert selected[at..][1..] == selected[at + 1..];
    assert properties[..t] == properties[..at] + [properties[at]] + properties[at + 1..t];
  }

  /** Erasing flag `at` keeps the prefix before it and leaves only clear flags after it. */
  lemma EraseFlags(selected: seq<bool>, sel: seq<bool>, at: nat, t: nat)
    requires at < t <= |sel| && t <= |selected|
    requires forall j :: at < j < t ==> !selected[j]
    requires sel[..t] == selected[..t]
    requires forall j :: t <= j < |sel| ==> !sel[j]
    ensures var sel' := sel[..at] + sel[at + 1..];
      && sel'[..at] == selected[..at]
      && forall j :: at <= j < |sel'| ==> !sel'[j]
  {
    var sel' := sel[..at] + sel[at + 1..];
    forall j | at <= j < |sel'|
      ensures !sel'[j]
    {
      assert sel'[j] == sel[j + 1];
      if j + 1 < t {
        assert sel[j + 1] == sel[..t][j + 1];
      }
    }
  }

  /** The indices `SelectedIndices` returns: every selected row, ascending. */
  predicate IndicesOf(selected: seq<bool>, indices: seq<nat>) {
    && (forall k :: 0 <= k < |indices| ==> indices[k] < |selected| && selected[indices[k]])
    && (forall k, m :: 0 <= k < m < |indices| ==> indices[k] < indices[m])
    && (forall j :: 0 <= j < |selected| && selected[j] ==> j in indices)
  }

  /** Where the erased part of the rows begins once `k` indices remain. */
  function Bound(n: nat, indices: seq<nat>, k: nat): nat
    requires k <= |indices|
  {
    if k == |indices| then n else indices[k]
  }

  /** The state of the erasing loop: the rows from the bound on have had
      their selected rows erased, the flags there are all clear, and the rows
      and flags before the bound are untouched. */
  ghost predicate Erasing<T>(properties: seq<T>, selected: seq<bool>, indices: seq<nat>, k: nat,
                            props: seq<T>, sel: seq<bool>)
    requires |properties| == |selected|
  {
    && k <= |indices|
    && var t := Bound(|properties|, indices, k);
    && t <= |properties|
    && props == properties[..t] + Unselected(properties[t..], selected[t..])
    && |sel| == |props|
    && sel[..t] == selected[..t]
    && forall j :: t <= j < |sel| ==> !sel[j]
  }

  /** Between two consecutive selected indices (or before the first one)
      no row is selected. */
  lemma GapUnselected(selected: seq<bool>, indices: seq<nat>, k: nat)
    requires IndicesOf(selected, indices) && k <= |indices|
    ensures forall j :: (k == 0 || indices[k - 1] < j) && 0 <= j < Bound(|selected|, indices, k) ==> !selected[j]
  {
    var t := Bound(|selected|, indices, k);
    forall m | 0 <= m < |indices|
      ensures !((k == 0 || indices[k - 1] < indices[m]) && indices[m] < t)
    {
      if m >= k {
        assert indices[k] <= indices[m];
      }
    }
  }

  /** One iteration of the erasing loop keeps its state. */
  lemma EraseKeeps<T>(properties: seq<T>, selected: seq<bool>, indices: seq<nat>, k: nat,
                      props: seq<T>, sel: seq<bool>)
    requires |properties| == |selected| && IndicesOf(selected, indices) && 0 < k
    requires Erasing(properties, selected, indices, k, props, sel)
    ensures indices[k - 1] < |props|
    ensures Erasing(properties, selected, indices, k - 1,
      props[..indices[k - 1]] + props[indices[k - 1] + 1..],
      sel[..indices[k - 1]] + sel[indices[k - 1] + 1..])
  {
    var t, at := Bound(|properties|, indices, k), indices[k - 1];
    GapUnselected(selected, indices, k);
    EraseStep(properties, selected, props, at, t);
    EraseFlags(selected, sel, at, t);
  }

  /** `delete_selected`: collect the selected indices, then erase them from the
      back so that earlier indices stay valid. The properties and the
      selection flags are erased in step; the surviving flags are all clear. */
  method DeleteSelected<T>(properties: seq<T>, selected: seq<bool>)
    returns (props: seq<T>, sel: seq<bool>)
    requires |properties| == |selected|
    ensures props == Unselected(properties, selected)
    ensures |sel| == |props|
    ensures forall j :: 0 <= j < |sel| ==> !sel[j]
  {
    var indices := SelectedIndices(selected);
    props, sel := properties, selected;
    var k: nat := |indices|;
    assert properties[|properties|..] == [];
    while k > 0
      invariant Erasing(properties, selected, indices, k, props, sel)
    {
      EraseKeeps(properties, selected, indices, k, props, sel);
      var at := indices[k - 1];
      props := props[..at] + props[at + 1..];
      sel := sel[..at] + sel[at + 1..];
      k := k - 1;
    }
    DeleteFinish(properties, selected, indices, props, sel);
  }

  /** With no index left, the whole sequence has been erased. */
  lemma DeleteFinish<T>(properties: seq<T>, selected: seq<bool>, indices: seq<nat>,
                        props: seq<T>, sel: seq<bool>)
    requires |properties| == |selected| && IndicesOf(selected, indices)
    requires Erasing(properties, selected, indices, 0, props, sel)
    ensures props == Unselected(properties, selected)
    ensures forall j :: 0 <= j < |sel| ==> !sel[j]
  {
    var t := Bound(|properties|, indices, 0);
    GapUnselected(selected, indices, 0);
    UnselectedRun(properties, selected, 0, t);
    assert properties[0..] == properties && selected[0..] == selected;
    forall j | 0 <= j < t
      ensures !sel[j]
    {
      assert sel[j] == sel[..t][j] == selected[..t][j] == selected[j];
    }
  }
}
