/**
 * The accordion's state machine: pinned and hidden item ids, the search
 * term and edit mode, changed only through the reducer; the state each
 * item derives from it; the registry of mounted items; and whether a
 * section has anything left to show.
 */
module Accordion {
  import opened Wrappers
  import opened JsRuntime

  // ---------------------------------------------------------------------
  // State and actions

  datatype AccordionState = AccordionState(pinnedIds: seq<string>, hiddenIds: seq<string>, searchTerm: string, editMode: bool)

  datatype AccordionAction =
    | SetSearchTerm(term: string)
    | SetEditMode(enabled: bool)
    | TogglePinned(itemId: string)
    | ToggleHidden(itemId: string)
    | MovePinnedUp(itemId: string)
    | RemoveStaleIds(activeIds: set<string>)
    | ShowAll
    | HideAllVisible(visibleItemIds: seq<string>)

  datatype Features = Features(pinning: bool, hiding: bool, search: bool)

  // ---------------------------------------------------------------------
  // List helpers

  /** `ids.filter(id => id !== x)`. */
  function Without(ids: seq<string>, x: string): (r: seq<string>)
    ensures x !in r && |r| <= |ids|
    ensures forall y :: y in r <==> y in ids && y != x
  {
    if ids == [] then []
    else (if ids[0] == x then [] else [ids[0]]) + Without(ids[1..], x)
  }

  lemma {:induction false} WithoutAbsent(ids: seq<string>, x: string)
    requires x !in ids
    ensures Without(ids, x) == ids
  {
    if ids != [] {
      WithoutAbsent(ids[1..], x);
    }
  }

  lemma {:induction false} WithoutAppend(a: seq<string>, b: seq<string>, x: string)
    ensures Without(a + b, x) == Without(a, x) + Without(b, x)
  {
    if a != [] {
      assert (a + b)[1..] == a[1..] + b;
      WithoutAppend(a[1..], b, x);
    } else {
      assert a + b == b;
    }
  }

  /** `ids.indexOf(x)`: the first position of x, or -1. */
  function IndexOf(ids: seq<string>, x: string): (r: int)
    ensures -1 <= r < |ids|
    ensures r == -1 <==> x !in ids
    ensures r >= 0 ==> ids[r] == x && x !in ids[..r]
  {
    if ids == [] then -1
    else if ids[0] == x then 0
    else
      var k := IndexOf(ids[1..], x);
      assert k >= 0 ==> ids[..k + 1] == [ids[0]] + ids[1..][..k];
      if k == -1 then -1 else k + 1
  }

  /** `[...new Set(ids)]`: the first occurrence of each id, in order. */
  function Dedup(ids: seq<string>): (r: seq<string>)
    ensures NoDuplicates(r)
    ensures forall y :: y in r <==> y in ids
  {
    if ids == [] then []
    else
      var d := Dedup(ids[..|ids| - 1]);
      if ids[|ids| - 1] in d then d else d + [ids[|ids| - 1]]
  }

  predicate NoDuplicates(ids: seq<string>) {
    forall i, j :: 0 <= i < j < |ids| ==> ids[i] != ids[j]
  }

  /** Deduplicating a list that extends another extends the other's deduplication. */
  lemma {:induction false} DedupExtends(a: seq<string>, b: seq<string>)
    ensures |Dedup(a)| <= |Dedup(a + b)| && Dedup(a + b)[..|Dedup(a)|] == Dedup(a)
    decreases |b|
  {
    if b == [] {
      assert a + b == a;
    } else {
      var c := a + b[..|b| - 1];
      assert (a + b)[..|a + b| - 1] == c;
      DedupExtends(a, b[..|b| - 1]);
    }
  }

  lemma {:induction false} DedupUnique(a: seq<string>)
    requires NoDuplicates(a)
    ensures Dedup(a) == a
    decreases |a|
  {
    if a != [] {
      var p := a[..|a| - 1];
      assert NoDuplicates(p);
      DedupUnique(p);
      assert a[|a| - 1] !in p;
      assert p + [a[|a| - 1]] == a;
    }
  }

  /** `ids.filter(id => active.has(id))`. */
  function KeepActive(ids: seq<string>, active: set<string>): (r: seq<string>)
    ensures |r| <= |ids|
    ensures forall y :: y in r <==> y in ids && y in active
  {
    if ids == [] then []
    else (if ids[0] in active then [ids[0]] else []) + KeepActive(ids[1..], active)
  }

  /** The filter keeps the list exactly when every id is active, and shortens it otherwise. */
  lemma {:induction false} KeepActiveLength(ids: seq<string>, active: set<string>)
    ensures (forall y :: y in ids ==> y in active) ==> KeepActive(ids, active) == ids
    ensures (exists y :: y in ids && y !in active) ==> |KeepActive(ids, active)| < |ids|
  {
    if ids != [] {
      KeepActiveLength(ids[1..], active);
      assert forall y :: y in ids[1..] ==> y in ids;
      if ids[0] in active {
        assert forall y :: y in ids && y !in active ==> y in ids[1..];
      }
    }
  }

  /** The pinned list after moving `x` up by one: swapped with its predecessor when it has one. */
  function MoveUp(ids: seq<string>, x: string): seq<string> {
    var i := IndexOf(ids, x);
    if i <= 0 then ids else ids[i - 1 := ids[i]][i := ids[i - 1]]
  }

  // ---------------------------------------------------------------------
  // The reducer

  /** AccordionReducer(state, action). */
  function Reduce(state: AccordionState, action: AccordionAction): (r: AccordionState)
    ensures !(action.TogglePinned? || action.MovePinnedUp? || action.RemoveStaleIds?) ==> r.pinnedIds == state.pinnedIds
    ensures !(action.ToggleHidden? || action.RemoveStaleIds? || action.ShowAll? || action.HideAllVisible?) ==>
      r.hiddenIds == state.hiddenIds
    ensures !action.SetSearchTerm? ==> r.searchTerm == state.searchTerm
    ensures !action.SetEditMode? ==> r.editMode == state.editMode
  {
    match action
    case SetSearchTerm(term) => state.(searchTerm := term)
    case SetEditMode(enabled) => state.(editMode := enabled)
    case TogglePinned(id) =>
      state.(pinnedIds := if id in state.pinnedIds then Without(state.pinnedIds, id) else state.pinnedIds + [id])
    case ToggleHidden(id) =>
      state.(hiddenIds := if id in state.hiddenIds then Without(state.hiddenIds, id) else state.hiddenIds + [id])
    case MovePinnedUp(id) =>
      if IndexOf(state.pinnedIds, id) <= 0 then state else state.(pinnedIds := MoveUp(state.pinnedIds, id))
    case RemoveStaleIds(active) =>
      var pinned := KeepActive(state.pinnedIds, active);
      var hidden := KeepActive(state.hiddenIds, active);
      if |pinned| == |state.pinnedIds| && |hidden| == |state.hiddenIds| then state
      else state.(pinnedIds := pinned, hiddenIds := hidden)
    case ShowAll => state.(hiddenIds := [])
    case HideAllVisible(visible) => state.(hiddenIds := Dedup(state.hiddenIds + visible))
  }

  /** SET_SEARCH_TERM and SET_EDIT_MODE set their own field and leave the rest alone. */
  lemma SettersOwnField(state: AccordionState, term: string, enabled: bool)
    ensures Reduce(state, SetSearchTerm(term)) == state.(searchTerm := term)
    ensures Reduce(state, SetSearchTerm(term)).searchTerm == term
    ensures Reduce(state, SetEditMode(enabled)).editMode == enabled
    ensures Reduce(state, SetEditMode(enabled)) == state.(editMode := enabled)
  {
  }

  /**
   * TOGGLE_PINNED: an absent id is appended at the end; a present one
   * disappears, every occurrence of it; no other id is affected.
   */
  lemma TogglePinnedEffect(state: AccordionState, x: string)
    ensures var r := Reduce(state, TogglePinned(x));
      (x !in state.pinnedIds ==> r.pinnedIds == state.pinnedIds + [x])
      && (x in r.pinnedIds <==> x !in state.pinnedIds)
      && (forall y :: y != x ==> (y in r.pinnedIds <==> y in state.pinnedIds))
      && r.hiddenIds == state.hiddenIds
  {
  }

  /** TOGGLE_HIDDEN, likewise on the hidden list. */
  lemma ToggleHiddenEffect(state: AccordionState, x: string)
    ensures var r := Reduce(state, ToggleHidden(x));
      (x !in state.hiddenIds ==> r.hiddenIds == state.hiddenIds + [x])
      && (x in r.hiddenIds <==> x !in state.hiddenIds)
      && (forall y :: y != x ==> (y in r.hiddenIds <==> y in state.hiddenIds))
      && r.pinnedIds == state.pinnedIds
  {
  }

  /** Toggling an absent id twice restores the list. */
  lemma ToggleTwice(state: AccordionState, x: string)
    requires x !in state.pinnedIds
    ensures Reduce(Reduce(state, TogglePinned(x)), TogglePinned(x)) == state
  {
    WithoutAppend(state.pinnedIds, [x], x);
    WithoutAbsent(state.pinnedIds, x);
    assert Without([x], x) == [];
  }

  /**
   * MOVE_PINNED_UP: nothing happens to an absent or first id; otherwise
   * the id trades places with its predecessor and the list keeps its
   * length and contents.
   */
  lemma MovePinnedUpEffect(state: AccordionState, x: string)
    ensures var i := IndexOf(state.pinnedIds, x);
      var r := Reduce(state, MovePinnedUp(x));
      (i <= 0 ==> r == state)
      && (i > 0 ==>
        |r.pinnedIds| == |state.pinnedIds|
        && r.pinnedIds[i - 1] == x && r.pinnedIds[i] == state.pinnedIds[i - 1]
        && (forall k :: 0 <= k < |r.pinnedIds| && k != i - 1 && k != i ==> r.pinnedIds[k] == state.pinnedIds[k])
        && multiset(r.pinnedIds) == multiset(state.pinnedIds)
        && IndexOf(r.pinnedIds, x) == i - 1
        && r.hiddenIds == state.hiddenIds)
  {
    var i := IndexOf(state.pinnedIds, x);
    if i > 0 {
      MoveUpSwaps(state.pinnedIds, x);
      MoveUpIndex(state.pinnedIds, x);
    }
  }

  lemma MoveUpSwaps(ids: seq<string>, x: string)
    requires IndexOf(ids, x) > 0
    ensures var i := IndexOf(ids, x);
      var r := MoveUp(ids, x);
      |r| == |ids| && r[i - 1] == x && r[i] == ids[i - 1]
      && (forall k :: 0 <= k < |r| && k != i - 1 && k != i ==> r[k] == ids[k])
      && multiset(r) == multiset(ids)
  {
  }

  lemma MoveUpIndex(ids: seq<string>, x: string)
    requires IndexOf(ids, x) > 0
    ensures IndexOf(MoveUp(ids, x), x) == IndexOf(ids, x) - 1
  {
    var i := IndexOf(ids, x);
    var r := MoveUp(ids, x);
    assert r[..i - 1] == ids[..i - 1];
    assert x !in r[..i - 1] by {
      assert forall y :: y in ids[..i - 1] ==> y in ids[..i];
    }
    IndexOfAt(r, x, i - 1);
  }

  lemma IndexOfAt(ids: seq<string>, x: string, k: nat)
    requires k < |ids| && ids[k] == x && x !in ids[..k]
    ensures IndexOf(ids, x) == k
  {
  }

  /**
   * REMOVE_STALE_IDS keeps the active ids, in their order, and returns the
   * state itself when no id is stale.
   */
  lemma RemoveStaleEffect(state: AccordionState, active: set<string>)
    ensures var r := Reduce(state, RemoveStaleIds(active));
      (forall y :: y in r.pinnedIds <==> y in state.pinnedIds && y in active)
      && (forall y :: y in r.hiddenIds <==> y in state.hiddenIds && y in active)
      && r.pinnedIds == KeepActive(state.pinnedIds, active) && r.hiddenIds == KeepActive(state.hiddenIds, active)
      && ((forall y :: y in state.pinnedIds + state.hiddenIds ==> y in active) ==> r == state)
      && r.searchTerm == state.searchTerm && r.editMode == state.editMode
  {
    KeepActiveLength(state.pinnedIds, active);
    KeepActiveLength(state.hiddenIds, active);
    if (forall y :: y in state.pinnedIds + state.hiddenIds ==> y in active) {
      assert forall y :: y in state.pinnedIds ==> y in state.pinnedIds + state.hiddenIds;
      assert forall y :: y in state.hiddenIds ==> y in state.pinnedIds + state.hiddenIds;
    }
  }

  /** SHOW_ALL empties the hidden list, and only it. */
  lemma ShowAllEffect(state: AccordionState)
    ensures Reduce(state, ShowAll) == state.(hiddenIds := [])
  {
  }

  /**
   * HIDE_ALL_VISIBLE: the hidden list becomes the duplicate-free union of
   * the hidden and visible ids, the hidden ones first and in their order.
   */
  lemma HideAllVisibleEffect(state: AccordionState, visible: seq<string>)
    requires NoDuplicates(state.hiddenIds)
    ensures var r := Reduce(state, HideAllVisible(visible)).hiddenIds;
      NoDuplicates(r)
      && (forall y :: y in r <==> y in state.hiddenIds || y in visible)
      && |state.hiddenIds| <= |r| && r[..|state.hiddenIds|] == state.hiddenIds
  {
    DedupExtends(state.hiddenIds, visible);
    DedupUnique(state.hiddenIds);
  }

  // ---------------------------------------------------------------------
  // Context, item state and search

  /** `s.includes(t)`. */
  predicate Includes(s: string, t: string)
    decreases |s|
  {
    StartsWith(s, t) || (s != [] && Includes(s[1..], t))
  }

  /** !features.search || !searchTerm || text.toLowerCase().includes(searchTerm.toLowerCase()). */
  predicate Matches(features: Features, searchTerm: string, text: string) {
    !features.search || searchTerm == "" || Includes(ToLower(text), ToLower(searchTerm))
  }

  /** The accordion context: present only with a non-empty id and some feature enabled. */
  datatype AccordionContext = AccordionContext(accordionId: string, state: AccordionState, features: Features, registered: seq<(string, string)>)

  /** The feature flags, each off unless set. */
  function FeaturesOf(pinned: Option<bool>, hidden: Option<bool>, search: Option<bool>): (f: Features)
    ensures f.pinning <==> pinned == Some(true)
    ensures f.hiding <==> hidden == Some(true)
    ensures f.search <==> search == Some(true)
  {
    Features(pinned.GetOr(false), hidden.GetOr(false), search.GetOr(false))
  }

  /**
   * The initial state of useAccordionContext: empty lists without an id or
   * any feature; otherwise the stored pinned and hidden lists for the
   * features that are on. `storedPinned` and `storedHidden` are what the
   * storage holds for this accordion.
   */
  function InitialState(accordionId: string, f: Features, storedPinned: seq<string>, storedHidden: seq<string>): (s: AccordionState)
    ensures s.searchTerm == "" && !s.editMode
    ensures s.pinnedIds == (if accordionId != "" && f.pinning then storedPinned else [])
    ensures s.hiddenIds == (if accordionId != "" && f.hiding then storedHidden else [])
  {
    if accordionId == "" || !(f.pinning || f.hiding || f.search) then AccordionState([], [], "", false)
    else AccordionState(if f.pinning then storedPinned else [], if f.hiding then storedHidden else [], "", false)
  }

  /** useAccordionContext's result: no context without an id or without any feature. */
  function MakeContext(accordionId: string, f: Features, state: AccordionState, registered: seq<(string, string)>): (c: Option<AccordionContext>)
    ensures c.Some? <==> accordionId != "" && (f.pinning || f.hiding || f.search)
    ensures c.Some? ==> c.value.state == state && c.value.features == f && c.value.accordionId == accordionId
  {
    if accordionId == "" || !(f.pinning || f.hiding || f.search) then None
    else Some(AccordionContext(accordionId, state, f, registered))
  }

  datatype ItemState = ItemState(itemUniqueId: string, isNested: bool, isPinned: bool, isHidden: bool, isMatch: bool,
                                 pinnedIndex: int, canMoveUp: bool, inEditMode: bool)

  function SectionPrefix(accordionId: string, sectionId: string): string {
    accordionId + "/" + sectionId + "/"
  }

  /** `${accordionId}/${sectionId}/${itemId}`, or "" outside an accordion or a section. */
  function ItemUniqueId(ctx: Option<AccordionContext>, sectionId: Option<string>, itemId: string): (u: string)
    ensures ctx.Some? && sectionId.Some? ==>
      var p := SectionPrefix(ctx.value.accordionId, sectionId.value);
      StartsWith(u, p) && |u| == |p| + |itemId| && u[|p|..] == itemId
    ensures ctx.None? || sectionId.None? ==> u == ""
  {
    if ctx.None? || sectionId.None? then ""
    else
      var p := SectionPrefix(ctx.value.accordionId, sectionId.value);
      assert (p + itemId)[..|p|] == p;
      assert (p + itemId)[|p|..] == itemId;
      p + itemId
  }

  /** Within one section of one accordion, distinct item ids give distinct unique ids. */
  lemma ItemUniqueIdInjective(ctx: AccordionContext, sectionId: string, a: string, b: string)
    requires a != b
    ensures ItemUniqueId(Some(ctx), Some(sectionId), a) != ItemUniqueId(Some(ctx), Some(sectionId), b)
  {
    var p := SectionPrefix(ctx.accordionId, sectionId);
    var u, v := ItemUniqueId(Some(ctx), Some(sectionId), a), ItemUniqueId(Some(ctx), Some(sectionId), b);
    assert u[|p|..] == a && v[|p|..] == b;
  }

  /**
   * useAccordionSectionItemState: nothing outside an accordion or for a
   * static item; otherwise the flags derived from the state.
   */
  function DeriveItemState(ctx: Option<AccordionContext>, sectionId: Option<string>, isNested: bool,
                           itemId: string, itemLabel: Option<string>, staticItem: bool): (r: Option<ItemState>)
    ensures r.None? <==> ctx.None? || staticItem
  {
    if ctx.None? || staticItem then None
    else
      var c := ctx.value;
      var uid := ItemUniqueId(ctx, sectionId, itemId);
      var isPinned := c.features.pinning && uid in c.state.pinnedIds;
      var isHidden := c.features.hiding && uid in c.state.hiddenIds;
      var pinnedIndex := if isPinned then IndexOf(c.state.pinnedIds, uid) else -1;
      Some(ItemState(uid, isNested, isPinned, isHidden,
                     Matches(c.features, c.state.searchTerm, itemLabel.GetOr(itemId)),
                     pinnedIndex, isPinned && pinnedIndex > 0, c.state.editMode))
  }

  /**
   * An item can move up exactly when it is pinned and not first; then
   * MOVE_PINNED_UP moves it one place up, and otherwise changes nothing.
   */
  lemma CanMoveUpIff(ctx: Option<AccordionContext>, sectionId: Option<string>, isNested: bool,
                     itemId: string, itemLabel: Option<string>, staticItem: bool)
    requires ctx.Some? && !staticItem
    ensures var r := DeriveItemState(ctx, sectionId, isNested, itemId, itemLabel, staticItem).value;
      var s := ctx.value.state;
      (r.canMoveUp <==> ctx.value.features.pinning && r.itemUniqueId in s.pinnedIds && IndexOf(s.pinnedIds, r.itemUniqueId) > 0)
      && (r.pinnedIndex == -1 <==> !r.isPinned)
      && (r.canMoveUp ==> IndexOf(Reduce(s, MovePinnedUp(r.itemUniqueId)).pinnedIds, r.itemUniqueId) == r.pinnedIndex - 1)
      && (r.itemUniqueId in s.pinnedIds && !r.canMoveUp && ctx.value.features.pinning ==> Reduce(s, MovePinnedUp(r.itemUniqueId)) == s)
  {
    var r := DeriveItemState(ctx, sectionId, isNested, itemId, itemLabel, staticItem).value;
    MovePinnedUpEffect(ctx.value.state, r.itemUniqueId);
  }

  /** An item matches iff search is off, the term is empty, or its label (else its id) contains the term, ignoring case. */
  lemma ItemMatchIff(ctx: Option<AccordionContext>, sectionId: Option<string>, isNested: bool,
                     itemId: string, itemLabel: Option<string>, staticItem: bool)
    requires ctx.Some? && !staticItem
    ensures var r := DeriveItemState(ctx, sectionId, isNested, itemId, itemLabel, staticItem).value;
      var c := ctx.value;
      r.isMatch <==> !c.features.search || c.state.searchTerm == ""
                     || Includes(ToLower(if itemLabel.Some? then itemLabel.value else itemId), ToLower(c.state.searchTerm))
  {
  }

  // ---------------------------------------------------------------------
  // The item registry

  /** The registeredItemIds map: unique ids and their labels, in insertion order. */
  class Registry {
    var entries: seq<(string, string)>

    ghost predicate Valid()
      reads this
    {
      forall i, j :: 0 <= i < j < |entries| ==> entries[i].0 != entries[j].0
    }

    constructor ()
      ensures entries == [] && Valid()
    {
      entries := [];
    }

    function Get(id: string): (r: Option<string>)
      reads this
      ensures r.Some? <==> exists i :: 0 <= i < |entries| && entries[i].0 == id
    {
      Lookup(entries, id)
    }

    /**
     * The registering effect: the id is (re)bound to its label; a new id
     * goes to the end, a known one keeps its place. `duplicate` is the
     * warning about an id already registered.
     */
    method Register(id: string, itemLabel: string) returns (duplicate: bool)
      requires Valid()
      modifies this
      ensures Valid()
      ensures duplicate <==> old(Get(id)).Some?
      ensures Get(id) == Some(itemLabel)
      ensures forall k :: k != id ==> Get(k) == old(Get(k))
      ensures !duplicate ==> entries == old(entries) + [(id, itemLabel)]
      ensures duplicate ==> |entries| == |old(entries)|
      ensures duplicate ==>
        exists i :: 0 <= i < |old(entries)| && old(entries)[i].0 == id && entries == old(entries)[i := (id, itemLabel)]
    {
      var i := 0;
      while i < |entries|
        invariant 0 <= i <= |entries|
        invariant forall j :: 0 <= j < i ==> entries[j].0 != id
      {
        if entries[i].0 == id {
          LookupSet(entries, i, itemLabel);
          entries := entries[i := (id, itemLabel)];
          return true;
        }
        i := i + 1;
      }
      LookupAppend(entries, id, itemLabel);
      entries := entries + [(id, itemLabel)];
      return false;
    }

    /** The cleanup of the registering effect: the id is forgotten, the others keep their order. */
    method Unregister(id: string)
      requires Valid()
      modifies this
      ensures Valid()
      ensures Get(id).None?
      ensures forall k :: k != id ==> Get(k) == old(Get(k))
      ensures |entries| == |old(entries)| - (if old(Get(id)).Some? then 1 else 0)
    {
      var i := 0;
      while i < |entries|
        invariant 0 <= i <= |entries|
        invariant forall j :: 0 <= j < i ==> entries[j].0 != id
      {
        if entries[i].0 == id {
          LookupRemove(entries, i);
          entries := entries[..i] + entries[i + 1..];
          return;
        }
        i := i + 1;
      }
    }
  }

  function Lookup(entries: seq<(string, string)>, id: string): (r: Option<string>)
    ensures r.Some? <==> exists i :: 0 <= i < |entries| && entries[i].0 == id
  {
    if entries == [] then None
    else if entries[0].0 == id then Some(entries[0].1)
    else
      var r := Lookup(entries[1..], id);
      assert forall i :: 0 < i < |entries| ==> entries[i] == entries[1..][i - 1];
      r
  }

  lemma {:induction false} LookupFirst(entries: seq<(string, string)>, i: nat)
    requires i < |entries|
    requires forall j, k :: 0 <= j < k < |entries| ==> entries[j].0 != entries[k].0
    ensures Lookup(entries, entries[i].0) == Some(entries[i].1)
  {
    if i > 0 {
      LookupFirst(entries[1..], i - 1);
    }
  }

  lemma LookupSet(entries: seq<(string, string)>, i: nat, itemLabel: string)
    requires i < |entries|
    requires forall j, k :: 0 <= j < k < |entries| ==> entries[j].0 != entries[k].0
    ensures var e := entries[i := (entries[i].0, itemLabel)];
      (forall j, k :: 0 <= j < k < |e| ==> e[j].0 != e[k].0)
      && Lookup(e, entries[i].0) == Some(itemLabel)
      && forall k :: k != entries[i].0 ==> Lookup(e, k) == Lookup(entries, k)
  {
    var e := entries[i := (entries[i].0, itemLabel)];
    LookupFirst(e, i);
    forall k | k != entries[i].0
      ensures Lookup(e, k) == Lookup(entries, k)
    {
      LookupSetOther(entries, i, itemLabel, k);
    }
  }

  lemma {:induction false} LookupSetOther(entries: seq<(string, string)>, i: nat, itemLabel: string, k: string)
    requires i < |entries| && k != entries[i].0
    ensures Lookup(entries[i := (entries[i].0, itemLabel)], k) == Lookup(entries, k)
  {
    if i > 0 && entries[0].0 != k {
      assert entries[i := (entries[i].0, itemLabel)][1..] == entries[1..][i - 1 := (entries[i].0, itemLabel)];
      LookupSetOther(entries[1..], i - 1, itemLabel, k);
    }
  }

  lemma LookupAppend(entries: seq<(string, string)>, id: string, itemLabel: string)
    requires forall j, k :: 0 <= j < k < |entries| ==> entries[j].0 != entries[k].0
    requires forall j :: 0 <= j < |entries| ==> entries[j].0 != id
    ensures var e := entries + [(id, itemLabel)];
      (forall j, k :: 0 <= j < k < |e| ==> e[j].0 != e[k].0)
      && Lookup(e, id) == Some(itemLabel)
      && forall k :: k != id ==> Lookup(e, k) == Lookup(entries, k)
  {
    var e := entries + [(id, itemLabel)];
    LookupFirst(e, |entries|);
    forall k | k != id
      ensures Lookup(e, k) == Lookup(entries, k)
    {
      LookupAppendOther(entries, (id, itemLabel), k);
    }
  }

  lemma {:induction false} LookupAppendOther(entries: seq<(string, string)>, p: (string, string), k: string)
    requires k != p.0
    ensures Lookup(entries + [p], k) == Lookup(entries, k)
  {
    if entries != [] && entries[0].0 != k {
      assert (entries + [p])[1..] == entries[1..] + [p];
      LookupAppendOther(entries[1..], p, k);
    }
  }

  lemma LookupRemove(entries: seq<(string, string)>, i: nat)
    requires i < |entries|
    requires forall j, k :: 0 <= j < k < |entries| ==> entries[j].0 != entries[k].0
    ensures var e := entries[..i] + entries[i + 1..];
      (forall j, k :: 0 <= j < k < |e| ==> e[j].0 != e[k].0)
      && Lookup(e, entries[i].0).None?
      && forall k :: k != entries[i].0 ==> Lookup(e, k) == Lookup(entries, k)
  {
    var e := entries[..i] + entries[i + 1..];
    forall j, k | 0 <= j < k < |e|
      ensures e[j].0 != e[k].0
    {
      var j' := if j < i then j else j + 1;
      var k' := if k < i then k else k + 1;
      assert e[j] == entries[j'] && e[k] == entries[k'];
    }
    forall j | 0 <= j < |e|
      ensures e[j].0 != entries[i].0
    {
      assert e[j] == entries[if j < i then j else j + 1];
    }
    forall k | k != entries[i].0
      ensures Lookup(e, k) == Lookup(entries, k)
    {
      LookupRemoveOther(entries, i, k);
    }
  }

  lemma {:induction false} LookupRemoveOther(entries: seq<(string, string)>, i: nat, k: string)
    requires i < |entries| && k != entries[i].0
    ensures Lookup(entries[..i] + entries[i + 1..], k) == Lookup(entries, k)
  {
    if i == 0 {
      assert entries[..0] + entries[1..] == entries[1..];
    } else if entries[0].0 != k {
      assert (entries[..i] + entries[i + 1..])[1..] == entries[1..][..i - 1] + entries[1..][i..];
      LookupRemoveOther(entries[1..], i - 1, k);
    }
  }

  // ---------------------------------------------------------------------
  // Section emptiness

  /**
   * Whether a registered item is shown in its section: not pinned (pinned
   * items move to the pinned area), not hidden, and matching the search.
   */
  predicate Shown(c: AccordionContext, uid: string, text: string) {
    !(c.features.pinning && uid in c.state.pinnedIds)
    && !(c.features.hiding && uid in c.state.hiddenIds)
    && Matches(c.features, c.state.searchTerm, text)
  }

  /** `label || id`: an empty label falls back to the unique id. */
  function SearchTextAsWritten(uid: string, itemLabel: string): string {
    if itemLabel != "" then itemLabel else uid
  }

  /** Whether some entry in `entries[k..]` belongs to the section. */
  predicate AnyInSection(entries: seq<(string, string)>, prefix: string, k: nat)
    requires k <= |entries|
    decreases |entries| - k
  {
    k < |entries| && (StartsWith(entries[k].0, prefix) || AnyInSection(entries, prefix, k + 1))
  }

  /** Whether some entry in `entries[k..]` belongs to the section and is shown, searching `label || id`. */
  predicate AnyShownAsWritten(c: AccordionContext, prefix: string, k: nat)
    requires k <= |c.registered|
    decreases |c.registered| - k
  {
    k < |c.registered|
    && ((StartsWith(c.registered[k].0, prefix)
         && Shown(c, c.registered[k].0, SearchTextAsWritten(c.registered[k].0, c.registered[k].1)))
        || AnyShownAsWritten(c, prefix, k + 1))
  }

  /**
   * useIsSectionEmpty as the code has it: never empty outside an accordion
   * or in edit mode; otherwise empty when the section has an item and none
   * of them is shown.
   */
  predicate SectionEmptyAsWritten(ctx: Option<AccordionContext>, sectionId: string) {
    ctx.Some? && !ctx.value.state.editMode
    && var prefix := SectionPrefix(ctx.value.accordionId, sectionId);
    AnyInSection(ctx.value.registered, prefix, 0) && !AnyShownAsWritten(ctx.value, prefix, 0)
  }

  /** useIsSectionEmpty: a scan of the registry with an early return at the first shown item. */
  method IsSectionEmpty(ctx: Option<AccordionContext>, sectionId: string) returns (empty: bool)
    ensures empty == SectionEmptyAsWritten(ctx, sectionId)
  {
    if ctx.None? {
      return false;
    }
    var c := ctx.value;
    if c.state.editMode {
      return false;
    }
    var prefix := SectionPrefix(c.accordionId, sectionId);
    var hasItems := false;
    var k := 0;
    while k < |c.registered|
      invariant 0 <= k <= |c.registered|
      invariant AnyInSection(c.registered, prefix, 0) <==> hasItems || AnyInSection(c.registered, prefix, k)
      invariant AnyShownAsWritten(c, prefix, 0) <==> AnyShownAsWritten(c, prefix, k)
    {
      var (id, itemLabel) := c.registered[k];
      if !StartsWith(id, prefix) {
        k := k + 1;
        continue;
      }
      hasItems := true;
      var isPinned := c.features.pinning && id in c.state.pinnedIds;
      var isHidden := c.features.hiding && id in c.state.hiddenIds;
      var isMatch := Matches(c.features, c.state.searchTerm, if itemLabel != "" then itemLabel else id);
      if !isPinned && !isHidden && isMatch {
        return false;
      }
      k := k + 1;
    }
    return hasItems;
  }

  /** Whether some entry in `entries[k..]` belongs to the section and is shown, searching the stored label. */
  predicate AnyShown(c: AccordionContext, prefix: string, k: nat)
    requires k <= |c.registered|
    decreases |c.registered| - k
  {
    k < |c.registered|
    && ((StartsWith(c.registered[k].0, prefix) && Shown(c, c.registered[k].0, c.registered[k].1))
        || AnyShown(c, prefix, k + 1))
  }

  /**
   * Section emptiness searching the label each item registered with, the
   * same text the item itself matches against.
   */
  predicate SectionEmpty(ctx: Option<AccordionContext>, sectionId: string) {
    ctx.Some? && !ctx.value.state.editMode
    && var prefix := SectionPrefix(ctx.value.accordionId, sectionId);
    AnyInSection(ctx.value.registered, prefix, 0) && !AnyShown(ctx.value, prefix, 0)
  }

  /**
   * A registry entry as the item registers it: its unique id, and its
   * label, or its own id when it has no label.
   */
  function RegisteredEntry(ctx: Option<AccordionContext>, sectionId: string, itemId: string, itemLabel: Option<string>): (string, string) {
    (ItemUniqueId(ctx, Some(sectionId), itemId), itemLabel.GetOr(itemId))
  }

  /**
   * An item's own flags and the section's view of its registry entry agree:
   * the item is pinned, hidden and matching exactly when the entry is.
   */
  lemma ItemAgreesWithEntry(ctx: Option<AccordionContext>, sectionId: string, isNested: bool, itemId: string, itemLabel: Option<string>)
    requires ctx.Some?
    ensures var r := DeriveItemState(ctx, Some(sectionId), isNested, itemId, itemLabel, false).value;
      var e := RegisteredEntry(ctx, sectionId, itemId, itemLabel);
      (!r.isPinned && !r.isHidden && r.isMatch) <==> Shown(ctx.value, e.0, e.1)
  {
  }

  /** In edit mode, or when the section has a shown item, it is not empty; with items and none shown, it is. */
  lemma {:induction false} SectionEmptyIff(c: AccordionContext, sectionId: string)
    ensures var prefix := SectionPrefix(c.accordionId, sectionId);
      SectionEmpty(Some(c), sectionId) <==>
        !c.state.editMode
        && (exists i :: 0 <= i < |c.registered| && StartsWith(c.registered[i].0, prefix))
        && (forall i :: 0 <= i < |c.registered| && StartsWith(c.registered[i].0, prefix) ==>
              !Shown(c, c.registered[i].0, c.registered[i].1))
  {
    var prefix := SectionPrefix(c.accordionId, sectionId);
    AnyInSectionIff(c.registered, prefix, 0);
    AnyShownIff(c, prefix, 0);
  }

  lemma {:induction false} AnyInSectionIff(entries: seq<(string, string)>, prefix: string, k: nat)
    requires k <= |entries|
    ensures AnyInSection(entries, prefix, k) <==> exists i :: k <= i < |entries| && StartsWith(entries[i].0, prefix)
    decreases |entries| - k
  {
    if k < |entries| {
      AnyInSectionIff(entries, prefix, k + 1);
    }
  }

  lemma {:induction false} AnyShownIff(c: AccordionContext, prefix: string, k: nat)
    requires k <= |c.registered|
    ensures AnyShown(c, prefix, k) <==>
      exists i :: k <= i < |c.registered| && StartsWith(c.registered[i].0, prefix) && Shown(c, c.registered[i].0, c.registered[i].1)
    decreases |c.registered| - k
  {
    if k < |c.registered| {
      AnyShownIff(c, prefix, k + 1);
    }
  }

  /** With no empty label registered, the code's search text is the stored label, and both views agree. */
  lemma {:induction false} SectionEmptyAgrees(ctx: Option<AccordionContext>, sectionId: string)
    requires ctx.Some? ==> forall i :: 0 <= i < |ctx.value.registered| ==> ctx.value.registered[i].1 != ""
    ensures SectionEmptyAsWritten(ctx, sectionId) == SectionEmpty(ctx, sectionId)
  {
    if ctx.Some? {
      ShownAgrees(ctx.value, SectionPrefix(ctx.value.accordionId, sectionId), 0);
    }
  }

  lemma {:induction false} ShownAgrees(c: AccordionContext, prefix: string, k: nat)
    requires k <= |c.registered|
    requires forall i :: 0 <= i < |c.registered| ==> c.registered[i].1 != ""
    ensures AnyShownAsWritten(c, prefix, k) == AnyShown(c, prefix, k)
    decreases |c.registered| - k
  {
    if k < |c.registered| {
      ShownAgrees(c, prefix, k + 1);
    }
  }

  /** An accordion "a" searching for "x", whose section "s" holds one item "x" registered with an empty label. */
  function EmptyLabelContext(): AccordionContext {
    AccordionContext("a", AccordionState([], [], "x", false), Features(false, false, true), [("a/s/x", "")])
  }

  /**
   * An item with an empty label: the item itself does not match the
   * search term "x", yet the code searches its unique id "a/s/x" instead
   * and so reports its section as not empty.
   */
  lemma EmptyLabelDisagreement()
    ensures var item := DeriveItemState(Some(EmptyLabelContext()), Some("s"), false, "x", Some(""), false).value;
      item.itemUniqueId == "a/s/x" && !item.isMatch
      && !SectionEmptyAsWritten(Some(EmptyLabelContext()), "s") && SectionEmpty(Some(EmptyLabelContext()), "s")
  {
    EmptyLabelItem();
    EmptyLabelSection();
  }

  lemma EmptyLabelItem()
    ensures var item := DeriveItemState(Some(EmptyLabelContext()), Some("s"), false, "x", Some(""), false).value;
      item.itemUniqueId == "a/s/x" && !item.isMatch
  {
    assert SectionPrefix("a", "s") + "x" == "a/s/x";
    assert ToLower("x") == "x";
    assert ToLower("") == "";
    assert !Includes("", "x");
  }

  lemma EmptyLabelSection()
    ensures !SectionEmptyAsWritten(Some(EmptyLabelContext()), "s") && SectionEmpty(Some(EmptyLabelContext()), "s")
  {
    var c := EmptyLabelContext();
    var prefix := SectionPrefix("a", "s");
    assert prefix == "a/s/";
    assert StartsWith("a/s/x", prefix);
    assert ToLower("x") == "x";
    assert ToLower("") == "";
    assert !Includes("", "x");
    assert ToLower("a/s/x") == "a/s/x";
    assert Includes("a/s/x", "x") by {
      assert Includes("/s/x", "x") by {
        assert Includes("s/x", "x") by {
          assert Includes("/x", "x") by {
            assert StartsWith("x", "x");
            assert "/x"[1..] == "x";
          }
          assert "s/x"[1..] == "/x";
        }
        assert "/s/x"[1..] == "s/x";
      }
      assert "a/s/x"[1..] == "/s/x";
    }
    assert AnyShownAsWritten(c, prefix, 0);
    assert !AnyShown(c, prefix, 1);
    assert AnyInSection(c.registered, prefix, 0);
  }
}
