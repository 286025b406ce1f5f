/** Keyboard section navigation and nav-link clicks of the snap container:
    ArrowDown / ArrowUp move to the adjacent `.page` section, cyclically. */
module SectionNav {
  import opened Options
  import Search

  /** What one keydown event does. */
  datatype KeyOutcome =
    | Ignored             // the handler returned, or the key is not an arrow
    | ScrollTo(index: nat) // `sections[index].scrollIntoView(...)`
    | NoSection           // default prevented, but the chosen `sections[i]` is undefined (empty list)

  /** Tag names whose focus makes the handler return before anything else. */
  const FormTags: seq<string> := ["INPUT", "TEXTAREA", "SELECT", "BUTTON"]

  /** True when a form control has the focus; `None` is a null `document.activeElement`. */
  function FocusInFormControl(active: Option<string>): (b: bool)
    ensures b <==> active == Some("INPUT") || active == Some("TEXTAREA") ||
                   active == Some("SELECT") || active == Some("BUTTON")
  {
    active.Some? && active.value in FormTags
  }

  /** A section counts as current when its top lies in [-20, innerHeight/2). */
  function InBand(top: real, innerHeight: real): (b: bool)
    ensures b <==> -20.0 <= top && 2.0 * top < innerHeight
  {
    -20.0 <= top && top < innerHeight / 2.0
  }

  /** The index of the current section given the sections' bounding-rect tops in
      document order: the first one in the band, or -1 if none is. */
  function CurrentIndex(tops: seq<real>, innerHeight: real): (ci: int)
    ensures -1 <= ci < |tops|
    ensures ci == -1 <==> forall i :: 0 <= i < |tops| ==> !InBand(tops[i], innerHeight)
    ensures 0 <= ci ==> InBand(tops[ci], innerHeight)
    ensures 0 <= ci ==> forall i :: 0 <= i < ci ==> !InBand(tops[i], innerHeight)
  {
    Search.FindIndex(tops, (t: real) => InBand(t, innerHeight))
  }

  /** The ArrowDown choice: the next section, or the first one. */
  function NextIndex(ci: int, len: nat): (r: int)
    ensures 0 < len && -1 <= ci < len ==> 0 <= r < len
    ensures 0 <= ci < len - 1 ==> r == ci + 1
    ensures ci == len - 1 || ci == -1 ==> r == 0
  {
    if 0 <= ci && ci < len - 1 then ci + 1 else 0
  }

  /** The ArrowUp choice: the previous section, or the last one. */
  function PrevIndex(ci: int, len: nat): (r: int)
    ensures 0 < len && -1 <= ci < len ==> 0 <= r < len
    ensures 0 < ci ==> r == ci - 1
    ensures ci == 0 || ci == -1 ==> r == len - 1
  {
    if ci > 0 then ci - 1 else len - 1
  }

  /** `sections[i].scrollIntoView()`: defined only for an index into the list. */
  function ScrollTarget(i: int, len: nat): (o: KeyOutcome)
    ensures o.ScrollTo? <==> 0 <= i < len
    ensures o.ScrollTo? ==> o.index == i
    ensures !o.ScrollTo? ==> o == NoSection
  {
    if 0 <= i < len then ScrollTo(i) else NoSection
  }

  /** The whole keydown handler. `hasSnap` says whether `#mainSnap` exists,
      `tops` are the tops of its `.page` sections in document order. */
  function KeyDown(active: Option<string>, hasSnap: bool, tops: seq<real>,
                   innerHeight: real, key: string): (o: KeyOutcome)
    ensures o.ScrollTo? ==> o.index < |tops|
    ensures o == NoSection ==> |tops| == 0
  {
    if FocusInFormControl(active) then Ignored
    else if !hasSnap then Ignored
    else
      var ci := CurrentIndex(tops, innerHeight);
      if key == "ArrowDown" then ScrollTarget(NextIndex(ci, |tops|), |tops|)
      else if key == "ArrowUp" then ScrollTarget(PrevIndex(ci, |tops|), |tops|)
      else Ignored
  }

  /** On every index, ArrowUp undoes ArrowDown. */
  lemma UpUndoesDown(i: int, len: nat)
    requires 0 <= i < len
    ensures PrevIndex(NextIndex(i, len), len) == i
  {
  }

  /** On every index, ArrowDown undoes ArrowUp. */
  lemma DownUndoesUp(i: int, len: nat)
    requires 0 <= i < len
    ensures NextIndex(PrevIndex(i, len), len) == i
  {
  }

  /** `k` ArrowDown steps from section `i`. */
  function DownSteps(i: int, len: nat, k: nat): int
  {
    if k == 0 then i else NextIndex(DownSteps(i, len, k - 1), len)
  }

  /** `k` ArrowUp steps from section `i`. */
  function UpSteps(i: int, len: nat, k: nat): int
  {
    if k == 0 then i else PrevIndex(UpSteps(i, len, k - 1), len)
  }

  /** ArrowDown is a rotation: `k < len` presses from section `i` land on
      section `i + k`, wrapped past the end. */
  lemma {:induction false} DownIsRotation(i: int, len: nat, k: nat)
    requires 0 <= i < len && k < len
    ensures DownSteps(i, len, k) == if i + k < len then i + k else i + k - len
  {
    if k > 0 {
      DownIsRotation(i, len, k - 1);
    }
  }

  /** ArrowUp is the inverse rotation: `k < len` presses from section `i` land
      on section `i - k`, wrapped past the start. */
  lemma {:induction false} UpIsRotation(i: int, len: nat, k: nat)
    requires 0 <= i < len && k < len
    ensures UpSteps(i, len, k) == if i - k >= 0 then i - k else i - k + len
  {
    if k > 0 {
      UpIsRotation(i, len, k - 1);
    }
  }

  /** Pressing ArrowDown, or ArrowUp, `len` times from any section comes back
      to it, and every section is reached on the way. */
  lemma FullCycle(i: int, len: nat, j: int)
    requires 0 <= i < len && 0 <= j < len
    ensures DownSteps(i, len, len) == i && UpSteps(i, len, len) == i
    ensures DownSteps(i, len, if i <= j then j - i else j - i + len) == j
    ensures UpSteps(i, len, if j <= i then i - j else i - j + len) == j
  {
    DownIsRotation(i, len, len - 1);
    UpIsRotation(i, len, len - 1);
    DownIsRotation(i, len, if i <= j then j - i else j - i + len);
    UpIsRotation(i, len, if j <= i then i - j else i - j + len);
  }

  /** The three guards: a focused form control, no snap container, or a key
      other than the two arrows leaves the page as it is. */
  lemma GuardsIgnore(active: Option<string>, hasSnap: bool, tops: seq<real>,
                     innerHeight: real, key: string)
    requires FocusInFormControl(active) || !hasSnap || (key != "ArrowDown" && key != "ArrowUp")
    ensures KeyDown(active, hasSnap, tops, innerHeight, key) == Ignored
  {
  }

  /** With sections present and no guard firing, each arrow key scrolls to a
      section; ArrowDown from the last section or from none goes to the first,
      ArrowUp from the first or from none goes to the last. */
  lemma ArrowKeysScroll(active: Option<string>, tops: seq<real>, innerHeight: real)
    requires !FocusInFormControl(active) && |tops| > 0
    ensures var ci := CurrentIndex(tops, innerHeight);
            var down := KeyDown(active, true, tops, innerHeight, "ArrowDown");
            var up := KeyDown(active, true, tops, innerHeight, "ArrowUp");
            down.ScrollTo? && up.ScrollTo? &&
            (down.index == if ci == |tops| - 1 || ci == -1 then 0 else ci + 1) &&
            (up.index == if ci <= 0 then |tops| - 1 else ci - 1)
  {
  }

  /** With an empty section list both arrow keys reach an undefined section. */
  lemma EmptyListHasNoTarget(active: Option<string>, innerHeight: real, key: string)
    requires !FocusInFormControl(active)
    requires key == "ArrowDown" || key == "ArrowUp"
    ensures KeyDown(active, true, [], innerHeight, key) == NoSection
  {
  }

  /** A nav-link click: `getElementById(target)` over the `id` attributes of
      the document's elements, in document order (`""` for an element without
      one). An empty id never names an element. `None` means no element, so
      no scroll. */
  function LinkClick(target: string, ids: seq<string>): (r: Option<nat>)
    ensures r.Some? <==> target != "" && target in ids
    ensures r.Some? ==> r.value < |ids| && ids[r.value] == target
    ensures r.Some? ==> forall i :: 0 <= i < r.value ==> ids[i] != target
  {
    if target == "" then None
    else
      var i := Search.FindIndex(ids, (id: string) => id == target);
      if i == -1 then None else Some(i)
  }
}
