/** RangeManager (bus.rs) as an object: two parallel lists kept sorted, searched by bisection. */
module RangeTable {
  import opened Base
  import opened Memory
  import opened AddressMap

  /** The split point of a sorted table is unique. */
  lemma SplitIsBelow(rs: seq<Range>, x: nat, p: nat)
    requires p <= |rs| && Sorted(rs)
    requires forall i :: 0 <= i < p ==> rs[i].start < x
    requires forall i :: p <= i < |rs| ==> rs[i].start >= x
    ensures p == Below(rs, x)
  {
    hide Sorted;
    assert p < |rs| ==> rs[p].start >= x;
  }

  class RangeManager {
    var starts: seq<u64>
    var sizes: seq<u64>

    /** The table as a list of ranges. */
    ghost function View(): seq<Range>
      requires |starts| == |sizes|
      reads this
    {
      seq(|starts|, i requires 0 <= i < |starts| && |starts| == |sizes| reads this => Range(starts[i], sizes[i]))
    }

    ghost predicate Valid()
      reads this
    {
      |starts| == |sizes| && Sorted(View())
    }

    constructor ()
      ensures Valid() && View() == []
    {
      starts, sizes := [], [];
    }

    /** How many ranges start below x. */
    method PartitionPoint(x: nat) returns (p: nat)
      requires Valid()
      ensures p == Below(View(), x)
    {
      ghost var rs := View();
      var high := |starts|;
      p := 0;
      while p < high
        invariant 0 <= p <= high <= |starts|
        invariant forall i :: 0 <= i < p ==> rs[i].start < x
        invariant forall i :: high <= i < |starts| ==> rs[i].start >= x
      {
        var mid := p + (high - p) / 2;
        assert rs[mid].start == starts[mid];
        if starts[mid] < x {
          p := mid + 1;
        } else {
          high := mid;
        }
      }
      SplitIsBelow(rs, x, p);
    }

    /** Accepts or rejects exactly as the model does; an accepted range keeps the table sorted. */
    method Add(r: Range) returns (res: Result<nat>)
      requires Valid()
      modifies this
      ensures Valid()
      ensures match AddRange(old(View()), r)
              case Err(e) => res == Err(e) && View() == old(View())
              case Ok((p, rs)) => res == Ok(p) && View() == rs
    {
      hide Below;
      if r.size == 0 || r.End() >= TWO_64 {
        return Err(BadRange);
      }
      var p := PartitionPoint(r.start);
      if p == |starts| {
        if p > 0 && starts[p - 1] + sizes[p - 1] > r.start {
          return Err(BadRange);
        }
      } else if starts[p] == r.start || r.End() > starts[p] {
        return Err(BadRange);
      }
      AddKeepsSorted(View(), r);
      starts := starts[..p] + [r.start] + starts[p..];
      sizes := sizes[..p] + [r.size] + sizes[p..];
      assert View() == old(View())[..p] + [r] + old(View())[p..];
      return Ok(p);
    }

    method Get(a: nat, n: nat) returns (res: Result<(nat, Range)>)
      requires Valid()
      ensures res == GetRange(View(), a, n)
    {
      hide Below;
      if n == 0 || a + n >= TWO_64 {
        return Err(BadRange);
      }
      var p := PartitionPoint(a + 1);
      if p == 0 {
        return Err(Unmapped);
      }
      var r := Range(starts[p - 1], sizes[p - 1]);
      if a + n <= r.End() {
        return Ok((p - 1, r));
      }
      return Err(Unmapped);
    }
  }
}
