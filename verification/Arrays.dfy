/** Moving elements of arrays in place. */
module Arrays {
  /** Shifting a range up and storing values in the gap is an insertion. */
  lemma ShiftThenStore<T>(before: seq<T>, shifted: seq<T>, after: seq<T>, at: nat, to: nat, added: seq<T>)
    requires |before| == |shifted| == |after| && at <= to && to + |added| <= |before|
    requires shifted[..at] == before[..at] && shifted[at + |added|..to + |added|] == before[at..to]
    requires after[..at] == shifted[..at] && after[at..at + |added|] == added
    requires after[at + |added|..] == shifted[at + |added|..]
    ensures after[..to + |added|] == before[..at] + added + before[at..to]
  {
    var n := |added|;
    assert after[at + n..to + n] == after[at + n..][..to - at];
    assert shifted[at + n..to + n] == shifted[at + n..][..to - at];
    assert after[..to + n] == after[..at] + after[at..at + n] + after[at + n..to + n];
  }

  /** Move elements `from`..`to` of an array up by `step`, last one first. */
  method ShiftUp<T>(a: array<T>, from: nat, to: nat, step: nat)
    requires from <= to && to + step <= a.Length
    modifies a
    ensures a[..from] == old(a[..from]) && a[from + step..to + step] == old(a[from..to])
  {
    var j := to;
    while j > from
      invariant from <= j <= to
      invariant forall i :: 0 <= i < j ==> a[i] == old(a[i])
      invariant a[j + step..to + step] == old(a[j..to])
    {
      j := j - 1;
      a[j + step] := a[j];
      assert a[j + step..to + step] == [a[j + step]] + a[j + 1 + step..to + step];
    }
  }

  /** Store values in an array from position `at` on. */
  method StoreAll<T>(a: array<T>, at: nat, values: seq<T>)
    requires at + |values| <= a.Length
    modifies a
    ensures a[..at] == old(a[..at]) && a[at..at + |values|] == values
    ensures a[at + |values|..] == old(a[at + |values|..])
  {
    var i := 0;
    while i < |values|
      invariant 0 <= i <= |values|
      invariant a[..at] == old(a[..at]) && a[at..at + i] == values[..i]
      invariant a[at + i..] == old(a[at + i..])
    {
      ghost var rest := a[at + i..];
      a[at + i] := values[i];
      i := i + 1;
      assert a[at..at + i] == a[at..at + i - 1] + [values[i - 1]];
      assert a[at + i..] == rest[1..];
      assert old(a[at + i..]) == old(a[at + i - 1..])[1..];
    }
  }

  /** Shift the elements of an array between `i` and `count` down by one. */
  method ShiftDown<T>(a: array<T>, i: nat, count: nat)
    requires i < count <= a.Length
    modifies a
    ensures a[..count - 1] == old(a[..i]) + old(a[i + 1..count])
  {
    var j := i;
    while j < count - 1
      invariant i <= j <= count - 1
      invariant a[..j] == old(a[..i]) + old(a[i + 1..j + 1]) && a[j + 1..count] == old(a[j + 1..count])
    {
      ghost var rest := a[j + 1..count];
      a[j] := a[j + 1];
      j := j + 1;
      assert a[j + 1..count] == rest[1..];
      assert old(a[i + 1..j + 1]) == old(a[i + 1..j]) + [old(a[j])];
    }
  }
}
