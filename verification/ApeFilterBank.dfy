/** The filters of all levels and both channels, in place on the sample arrays. */
module ApeFilterBank {
  import opened ApeWords
  import opened ApeLossless
  import F = ApeFilter

  /** How many filters a channel passes. */
  function Levels(fset: nat): (n: nat)
    requires FilterSet(fset)
    ensures n <= LEVELS && (n < LEVELS ==> Order(fset, n) == 0)
    ensures forall i :: 0 <= i < n ==> Order(fset, i) >= 16
  {
    if fset == 0 then 0 else if fset < 3 then 1 else if fset == 3 then 2 else 3
  }

  class FilterBank {
    const fset: nat
    /** Level `i` of channel `c` is `filters[2 * i + c]`. */
    const filters: seq<F.APEFilter>
    ghost const Repr: set<object>

    static ghost function Footprint(f: F.APEFilter): set<object> {
      {f, f.coeffs, f.history}
    }

    /** A filter of order `n` with its buffers, inside `repr`. */
    static ghost predicate Placed(f: F.APEFilter, n: nat, repr: set<object>) {
      && Footprint(f) <= repr && f.coeffs != f.history
      && f.order == n >= 16 && f.coeffs.Length == n && f.history.Length == 2 * n + F.HISTORY_SIZE
    }

    ghost predicate Allocated()
      ensures Allocated() ==> FilterSet(fset) && |filters| == 2 * Levels(fset)
    {
      && FilterSet(fset)
      && |filters| == 2 * Levels(fset)
      && (forall i :: 0 <= i < |filters| ==> Placed(filters[i], Order(fset, i / 2), Repr))
      && (forall i, j :: 0 <= i < j < |filters| ==> Footprint(filters[i]) !! Footprint(filters[j]))
    }

    /** The filters from number `from` on are as `do_init_filter` leaves them. */
    ghost predicate Cleared(from: nat, to: nat)
      requires Allocated() && to <= |filters|
      reads Repr
    {
      forall i :: from <= i < to ==> filters[i].Valid() && filters[i].State() == F.Zero(filters[i].order)
    }

    constructor (fset: nat)
      requires FilterSet(fset)
      ensures this.fset == fset && Allocated() && fresh(Repr)
    {
      var fs: seq<F.APEFilter> := [];
      ghost var repr: set<object> := {};
      for i := 0 to 2 * Levels(fset)
        invariant |fs| == i && fresh(repr)
        invariant forall j :: 0 <= j < i ==> Placed(fs[j], Order(fset, j / 2), repr)
        invariant forall j, k :: 0 <= j < k < i ==> Footprint(fs[j]) !! Footprint(fs[k])
      {
        var f := new F.APEFilter(Order(fset, i / 2));
        fs := fs + [f];
        repr := repr + Footprint(f);
      }
      this.fset := fset;
      filters := fs;
      Repr := repr;
    }

    method Init()
      requires Allocated()
      modifies Repr
      ensures Cleared(0, |filters|)
    {
      hide Allocated, Cleared, Placed, F.Zero;
      NoneCleared();
      for i := 0 to |filters|
        invariant Cleared(0, i)
      {
        InitOne(i);
      }
    }

    method InitOne(i: nat)
      requires Allocated() && i < |filters| && Cleared(0, i)
      modifies Repr
      ensures Cleared(0, i + 1)
    {
      hide F.Zero;
      filters[i].Init();
    }

    lemma NoneCleared()
      requires Allocated()
      ensures Cleared(0, 0)
    {
    }

    /** `apply_filter` for one channel. */
    method ApplyOne(i: nat, data: array<int>, count: nat)
      requires Allocated() && i < |filters| && Cleared(i, |filters|)
      requires count <= data.Length && data !in Repr
      modifies Repr, data
      ensures data[..count]
        == F.Run(F.Zero(Order(fset, i / 2)), old(data[..count]), Fracbits(fset, i / 2)).1
      ensures Cleared(i + 1, |filters|)
    {
      filters[i].Apply(data, count, Fracbits(fset, i / 2));
    }

    lemma FewerCleared(from: nat)
      requires Allocated() && from < |filters| && Cleared(from, |filters|)
      ensures Cleared(from + 1, |filters|)
    {
    }

    /** `ape_apply_filters` on two channels */
    method ApplyStereo(decoded0: array<int>, decoded1: array<int>, count: nat)
      requires Allocated() && Cleared(0, |filters|) && count <= decoded0.Length && count <= decoded1.Length
      requires decoded0 != decoded1 && decoded0 !in Repr && decoded1 !in Repr
      modifies Repr, decoded0, decoded1
      ensures decoded0[..count] == Cascade(fset, 0, old(decoded0[..count]))
      ensures decoded1[..count] == Cascade(fset, 0, old(decoded1[..count]))
    {
      hide F.Run, F.Zero, Order, Fracbits, Cascade, Cleared, Allocated;
      for i := 0 to Levels(fset)
        invariant Cleared(2 * i, |filters|)
        invariant Cascade(fset, i, decoded0[..count]) == Cascade(fset, 0, old(decoded0[..count]))
        invariant Cascade(fset, i, decoded1[..count]) == Cascade(fset, 0, old(decoded1[..count]))
      {
        ghost var a, b := decoded0[..count], decoded1[..count];
        ApplyOne(2 * i, decoded0, count);
        ApplyOne(2 * i + 1, decoded1, count);
        CascadeMore(fset, i, a);
        CascadeMore(fset, i, b);
      }
      CascadeEnds(fset, decoded0[..count]);
      CascadeEnds(fset, decoded1[..count]);
    }

    /** `ape_apply_filters` on one channel: the second channel's filters stay as they are. */
    method ApplyMono(decoded0: array<int>, count: nat)
      requires Allocated() && Cleared(0, |filters|) && count <= decoded0.Length && decoded0 !in Repr
      modifies Repr, decoded0
      ensures decoded0[..count] == Cascade(fset, 0, old(decoded0[..count]))
    {
      hide F.Run, F.Zero, Order, Fracbits, Cascade, Cleared, Allocated;
      for i := 0 to Levels(fset)
        invariant Cleared(2 * i, |filters|)
        invariant Cascade(fset, i, decoded0[..count]) == Cascade(fset, 0, old(decoded0[..count]))
      {
        ghost var a := decoded0[..count];
        ApplyOne(2 * i, decoded0, count);
        FewerCleared(2 * i + 1);
        CascadeMore(fset, i, a);
      }
      CascadeEnds(fset, decoded0[..count]);
    }
  }

  lemma CascadeMore(fset: nat, level: nat, xs: seq<int>)
    requires FilterSet(fset) && level < Levels(fset)
    ensures Cascade(fset, level, xs)
      == Cascade(fset, level + 1, F.Run(F.Zero(Order(fset, level)), xs, Fracbits(fset, level)).1)
  {
  }

  lemma CascadeEnds(fset: nat, xs: seq<int>)
    requires FilterSet(fset)
    ensures Cascade(fset, Levels(fset), xs) == xs
  {
  }
}
