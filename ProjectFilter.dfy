/** The project filter: chips under `.filters` choose which cards of
    `#projectsGrid` are displayed. */
module ProjectFilter {
  import opened Options

  const All: string := "all"

  /** `card.style.display` after a click on a chip whose `data-filter` is
      `filter`, for a card whose `data-type` is `cardType` (`None` stands for
      an absent attribute, i.e. `undefined`, which equals only itself). */
  function CardDisplay(filter: Option<string>, cardType: Option<string>): (display: string)
    ensures display == "" <==> filter == Some(All) || cardType == filter
    ensures display == "" || display == "none"
  {
    if filter == Some(All) then "" else if cardType == filter then "" else "none"
  }

  /** The displays of all cards after a click with `filter`. */
  function Displays(filter: Option<string>, types: seq<Option<string>>): (ds: seq<string>)
    ensures |ds| == |types|
    ensures forall k :: 0 <= k < |ds| ==> (ds[k] == "" <==> filter == Some(All) || types[k] == filter)
    ensures forall k :: 0 <= k < |ds| ==> ds[k] == "" || ds[k] == "none"
  {
    seq(|types|, k requires 0 <= k < |types| => CardDisplay(filter, types[k]))
  }

  /** The chips that carry the `active` class. */
  function ActiveChips(active: seq<bool>): set<nat>
  {
    set i: nat | i < |active| && active[i]
  }

  /** The chip flags after a click on chip `k` of `n`. */
  function OnlyActive(n: nat, k: nat): (flags: seq<bool>)
    requires k < n
    ensures |flags| == n
    ensures ActiveChips(flags) == {k}
  {
    seq(n, i requires 0 <= i < n => i == k)
  }

  /** The observable state of the filter bar and the grid. */
  datatype GridState = GridState(active: seq<bool>, displays: seq<string>)

  /** The chip flags after `chips.forEach(c => c.classList.remove('active'))`. */
  function Cleared(active: seq<bool>): (flags: seq<bool>)
    ensures |flags| == |active|
    ensures ActiveChips(flags) == {}
  {
    seq(|active|, i requires 0 <= i < |active| => false)
  }

  /** One click on chip `k` applied to the state before it: every flag cleared,
      flag `k` set, every card's display recomputed from the chip's filter. */
  function ClickStep(st: GridState, filters: seq<Option<string>>, types: seq<Option<string>>,
                     k: nat): (r: GridState)
    requires |st.active| == |filters| && k < |filters|
    ensures |r.active| == |filters| && |r.displays| == |types|
  {
    GridState(Cleared(st.active)[k := true], Displays(filters[k], types))
  }

  /** The state a click on chip `k` leaves, given without any state before:
      exactly chip `k` active, each card shown by the chip's filter. */
  function Clicked(filters: seq<Option<string>>, types: seq<Option<string>>, k: nat): (r: GridState)
    requires k < |filters|
    ensures |r.active| == |filters| && ActiveChips(r.active) == {k}
    ensures |r.displays| == |types|
    ensures forall j :: 0 <= j < |types| ==>
              (r.displays[j] == "" <==> filters[k] == Some(All) || types[j] == filters[k])
  {
    GridState(OnlyActive(|filters|, k), Displays(filters[k], types))
  }

  /** A click's result does not depend on the state before it. */
  lemma ClickForgetsOldState(st: GridState, filters: seq<Option<string>>,
                             types: seq<Option<string>>, k: nat)
    requires |st.active| == |filters| && k < |filters|
    ensures ClickStep(st, filters, types, k) == Clicked(filters, types, k)
  {
  }

  /** Repeating the same click changes nothing more. */
  lemma ClickIdempotent(st: GridState, filters: seq<Option<string>>,
                        types: seq<Option<string>>, k: nat)
    requires |st.active| == |filters| && k < |filters|
    ensures var once := ClickStep(st, filters, types, k);
            ClickStep(once, filters, types, k) == once
  {
  }

  /** The chips and the cards on the page. */
  class Grid {
    const filters: seq<Option<string>> // the `data-filter` of each chip
    const types: seq<Option<string>>   // the `data-type` of each card
    const active: array<bool>          // whether each chip has class `active`
    const display: array<string>       // each card's `style.display`

    ghost predicate Valid()
      reads this
    {
      active.Length == |filters| && display.Length == |types|
    }

    ghost function State(): GridState
      reads this, active, display
    {
      GridState(active[..], display[..])
    }

    constructor (filters: seq<Option<string>>, types: seq<Option<string>>,
                 active0: seq<bool>, display0: seq<string>)
      requires |active0| == |filters| && |display0| == |types|
      ensures Valid() && fresh(active) && fresh(display)
      ensures this.filters == filters && this.types == types
      ensures State() == GridState(active0, display0)
    {
      this.filters := filters;
      this.types := types;
      var a := new bool[|active0|](i requires 0 <= i < |active0| => active0[i]);
      var d := new string[|display0|](i requires 0 <= i < |display0| => display0[i]);
      active := a;
      display := d;
    }

    /** The click handler of chip `k`: every chip loses `active`, chip `k`
        gains it, then each card is shown or hidden by the chip's filter. */
    method Click(k: nat)
      requires Valid() && k < |filters|
      modifies active, display
      ensures Valid()
      ensures State() == ClickStep(old(State()), filters, types, k)
    {
      ghost var before := State();
      for i := 0 to active.Length
        invariant forall j :: 0 <= j < i ==> !active[j]
        invariant display[..] == old(display[..])
      {
        active[i] := false;
      }
      active[k] := true;
      var f := filters[k];
      for i := 0 to display.Length
        invariant forall j :: 0 <= j < i ==> display[j] == CardDisplay(f, types[j])
        invariant active[..] == OnlyActive(|filters|, k)
      {
        if f == Some(All) {
          display[i] := "";
        } else {
          var t := types[i];
          display[i] := if t == f then "" else "none";
        }
      }
      ClickForgetsOldState(before, filters, types, k);
    }

    /** The keydown handler of chip `k`: Enter or Space act as a click. */
    method KeyDown(k: nat, key: string)
      requires Valid() && k < |filters|
      modifies active, display
      ensures Valid()
      ensures State() == if key == "Enter" || key == " " then ClickStep(old(State()), filters, types, k)
                         else old(State())
    {
      if key == "Enter" || key == " " {
        Click(k);
      }
    }
  }
}
