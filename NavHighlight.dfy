/** The intersection observer over the `.page` sections: the nav link whose
    `data-target` is the id of an intersecting section becomes active. */
module NavHighlight {
  import opened Options

  /** One intersection-observer entry: the target's `id` and whether it
      intersects. */
  datatype Entry = Entry(id: string, isIntersecting: bool)

  /** The `active` flags of the links after handling one intersecting entry
      with `id`; `targets` are the links' `data-target` attributes
      (`None` when absent, which equals no id). */
  function Highlight(targets: seq<Option<string>>, id: string): (flags: seq<bool>)
    ensures |flags| == |targets|
    ensures forall a :: 0 <= a < |flags| ==> (flags[a] <==> targets[a] == Some(id))
  {
    seq(|targets|, a requires 0 <= a < |targets| => targets[a] == Some(id))
  }

  /** One entry of the batch: an intersecting one rewrites every link's flag,
      another changes nothing. */
  function Step(flags: seq<bool>, targets: seq<Option<string>>, e: Entry): (r: seq<bool>)
    ensures e.isIntersecting ==> |r| == |targets|
    ensures e.isIntersecting ==> forall a :: 0 <= a < |r| ==> (r[a] <==> targets[a] == Some(e.id))
    ensures !e.isIntersecting ==> r == flags
  {
    if e.isIntersecting then Highlight(targets, e.id) else flags
  }

  /** The entries of a batch handled in order. */
  function ApplyBatch(flags: seq<bool>, targets: seq<Option<string>>, entries: seq<Entry>): (r: seq<bool>)
    ensures |flags| == |targets| ==> |r| == |targets|
    ensures (forall i :: 0 <= i < |entries| ==> !entries[i].isIntersecting) ==> r == flags
    decreases |entries|
  {
    if entries == [] then flags
    else Step(ApplyBatch(flags, targets, entries[..|entries| - 1]), targets, entries[|entries| - 1])
  }

  /** The index of the last intersecting entry, or -1. */
  function LastIntersecting(entries: seq<Entry>): (j: int)
    ensures -1 <= j < |entries|
    ensures j == -1 <==> forall i :: 0 <= i < |entries| ==> !entries[i].isIntersecting
    ensures 0 <= j ==> entries[j].isIntersecting
    ensures forall i :: j < i < |entries| ==> !entries[i].isIntersecting
    decreases |entries|
  {
    if entries == [] then -1
    else if entries[|entries| - 1].isIntersecting then |entries| - 1
    else LastIntersecting(entries[..|entries| - 1])
  }

  /** After a batch, the last intersecting entry decides: link `a` is active iff
      its target is that entry's id; a batch with no intersecting entry
      leaves every flag as it was. */
  lemma {:induction false} LastIntersectingWins(flags: seq<bool>, targets: seq<Option<string>>,
                                                entries: seq<Entry>)
    ensures var j := LastIntersecting(entries);
            ApplyBatch(flags, targets, entries) ==
              if j == -1 then flags else Highlight(targets, entries[j].id)
    decreases |entries|
  {
    if entries != [] && !entries[|entries| - 1].isIntersecting {
      LastIntersectingWins(flags, targets, entries[..|entries| - 1]);
    }
  }

  /** The links of the nav bar. */
  class Nav {
    const targets: seq<Option<string>>  // each `.nav a`'s `data-target`
    const active: array<bool>           // whether each link has class `active`

    ghost predicate Valid()
      reads this
    {
      active.Length == |targets|
    }

    constructor (targets: seq<Option<string>>, active0: seq<bool>)
      requires |active0| == |targets|
      ensures Valid() && fresh(active) && this.targets == targets
      ensures active[..] == active0
    {
      this.targets := targets;
      active := new bool[|active0|](i requires 0 <= i < |active0| => active0[i]);
    }

    /** The observer callback on one batch of entries. */
    method Observe(entries: seq<Entry>)
      requires Valid()
      modifies active
      ensures active[..] == ApplyBatch(old(active[..]), targets, entries)
    {
      for n := 0 to |entries|
        invariant active[..] == ApplyBatch(old(active[..]), targets, entries[..n])
      {
        var entry := entries[n];
        ghost var before := active[..];
        if entry.isIntersecting {
          var id := entry.id;
          for a := 0 to active.Length
            invariant forall b :: 0 <= b < a ==> active[b] == (targets[b] == Some(id))
            invariant forall b :: a <= b < active.Length ==> active[b] == before[b]
          {
            active[a] := targets[a] == Some(id);
          }
        }
        assert entries[..n + 1][..n] == entries[..n];
        assert active[..] == Step(before, targets, entry);
      }
      assert entries[..|entries|] == entries;
    }
  }
}
