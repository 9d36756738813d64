/** The rotary dial menu (app/site/page.tsx, RotaryMenu): a dial that is
    turned by dragging, snaps to the nearest of its items when released and
    reports the chosen item. Pointer positions arrive as angles in degrees,
    already computed from the pointer and the dial's centre. */
module RotaryMenu {
  import opened Snap
  import opened Layout

  datatype Option<T> = None | Some(value: T)

  /** One entry of the menu; `caption` is the source's `label`. */
  datatype MenuItem = MenuItem(id: int, caption: string, icon: Option<string>)

  /** The component state: `rotation`, `isDragging`, `startAngle` and
      `selectedIndex`, where `startAngle` is the pointer angle minus the
      rotation at the moment the drag began. */
  datatype DialState = DialState(rotation: real, dragging: bool, startAngle: real, selected: Option<nat>)

  /** The state of a freshly mounted menu. */
  const Initial := DialState(0.0, false, 0.0, None)

  /** What a handler leaves behind: the new state and the item handed to
      `onSelect`, if any. */
  datatype Reaction = Reaction(state: DialState, report: Option<MenuItem>)

  /** The selected index, when there is one, names an item. */
  predicate SelectionValid(s: DialState, count: nat)
  {
    s.selected.Some? ==> s.selected.value < count
  }

  // ---------------------------------------------------------------------------
  // The handlers, as functions of the state.

  /** handleMouseDown and handleTouchStart: the drag begins, anchored so that
      the pointer angle minus the anchor is the current rotation. Nothing
      stops a press during a drag from re-anchoring it. */
  function Press(s: DialState, angle: real): (t: DialState)
    ensures t.dragging && angle - t.startAngle == s.rotation
    ensures t.rotation == s.rotation && t.selected == s.selected
  {
    s.(dragging := true, startAngle := angle - s.rotation)
  }

  /** handleMouseMove: while dragging, the rotation follows the pointer,
      measured from the anchor; otherwise nothing happens. */
  function Move(s: DialState, angle: real): (t: DialState)
    ensures !s.dragging ==> t == s
    ensures s.dragging ==> t.rotation + s.startAngle == angle
    ensures t.dragging == s.dragging && t.startAngle == s.startAngle && t.selected == s.selected
  {
    if !s.dragging then s else s.(rotation := angle - s.startAngle)
  }

  /** handleMouseUp: ends the drag; with items present the dial snaps to the
      nearest slot, that slot becomes the selection and its item is reported. */
  function Release(s: DialState, items: seq<MenuItem>): (r: Reaction)
    ensures !r.state.dragging && r.state.startAngle == s.startAngle
    ensures !s.dragging ==> r == Reaction(s, None)
    ensures s.dragging && |items| == 0 ==>
              r.state == s.(dragging := false) && r.report == None
    ensures s.dragging && 0 < |items| ==>
              r.state.selected.Some? && r.state.selected.value < |items|
              && r.state.rotation == SlotsOf(|items|).Angle(r.state.selected.value)
              && 0.0 <= r.state.rotation < 360.0
              && r.report == Some(items[r.state.selected.value])
  {
    if !s.dragging then Reaction(s, None)
    else if |items| == 0 then Reaction(s.(dragging := false), None)
    else
      var nearest := NearestIndex(s.rotation, SlotsOf(|items|));
      AngleInTurn(SlotsOf(|items|), nearest);
      Reaction(s.(dragging := false,
                  rotation := SlotsOf(|items|).Angle(nearest),
                  selected := Some(nearest)),
               Some(items[nearest]))
  }

  /** The `onClick` of item `k`: it becomes the selection and is reported at
      once; the dial does not turn. */
  function Click(s: DialState, items: seq<MenuItem>, k: nat): (r: Reaction)
    requires k < |items|
    ensures r.state.selected == Some(k) && r.report == Some(items[k])
    ensures r.state.rotation == s.rotation && r.state.dragging == s.dragging
    ensures r.state.startAngle == s.startAngle
  {
    Reaction(s.(selected := Some(k)), Some(items[k]))
  }

  // ---------------------------------------------------------------------------
  // Properties of single handlers.

  /** The index chosen by a release is the one the snapping arithmetic
      computes, and its slot is at least as close to the released rotation,
      measured around the circle, as any other slot. */
  lemma ReleaseSelectsNearest(s: DialState, items: seq<MenuItem>, j: nat)
    requires s.dragging && j < |items|
    ensures Release(s, items).state.selected == Some(NearestIndex(s.rotation, SlotsOf(|items|)))
    ensures CircularDistance(Normalize(s.rotation), Release(s, items).state.rotation)
         <= CircularDistance(Normalize(s.rotation), SlotsOf(|items|).Angle(j))
  {
    NearestIsClosest(s.rotation, SlotsOf(|items|), j);
  }

  /** A rotation within half a slot below a full turn snaps to the first
      item: the rounded slot `N` wraps round to 0. */
  lemma ReleaseWrapsToFirst(s: DialState, items: seq<MenuItem>)
    requires s.dragging && 0 < |items|
    requires 360.0 - SlotsOf(|items|).width / 2.0 <= Normalize(s.rotation)
    ensures Release(s, items).state.selected == Some(0)
    ensures Release(s, items).state.rotation == 0.0
    ensures Release(s, items).report == Some(items[0])
  {
    WrapToFirstSlot(s.rotation, SlotsOf(|items|));
  }

  /** Releasing a dial that already rests on slot `k` leaves it there and
      selects `k`. */
  lemma ReleaseAtSlot(s: DialState, items: seq<MenuItem>, k: nat)
    requires s.dragging && k < |items|
    requires s.rotation == SlotsOf(|items|).Angle(k)
    ensures Release(s, items).state == s.(dragging := false, selected := Some(k))
    ensures Release(s, items).report == Some(items[k])
  {
    SnapIdempotent(SlotsOf(|items|), k);
  }

  /** Whole turns of the dial make no difference to a release. */
  lemma ReleaseIgnoresWholeTurns(s: DialState, items: seq<MenuItem>, turns: int)
    requires s.dragging && 0 < |items|
    ensures Release(s.(rotation := s.rotation + 360.0 * turns as real), items) == Release(s, items)
  {
    NearestIndexPeriodic(s.rotation, SlotsOf(|items|), turns);
  }

  /** With a single item every release selects it and turns the dial home. */
  lemma ReleaseSingleItem(s: DialState, items: seq<MenuItem>)
    requires s.dragging && |items| == 1
    ensures Release(s, items).state.rotation == 0.0
    ensures Release(s, items).state.selected == Some(0)
    ensures Release(s, items).report == Some(items[0])
  {
  }

  /** After a press at `a0`, a move to `a` turns the dial by `a - a0`; moving
      back to `a0` restores the rotation the dial had before the press. */
  lemma DragTracksPointer(s: DialState, a0: real, a: real)
    ensures Move(Press(s, a0), a).rotation == s.rotation + (a - a0)
    ensures Move(Press(s, a0), a0) == Press(s, a0)
  {
  }

  /** Moves are absolute: only the last pointer angle of a drag matters. */
  lemma MovesAreAbsolute(s: DialState, a1: real, a2: real)
    ensures Move(Move(s, a1), a2) == Move(s, a2)
  {
  }

  /** A second press re-anchors the drag as if the first had not happened. */
  lemma PressReanchors(s: DialState, a0: real, a1: real)
    ensures Press(Press(s, a0), a1) == Press(s, a1)
  {
  }

  /** Every handler keeps the selected index within the items. */
  lemma HandlersKeepSelectionValid(s: DialState, items: seq<MenuItem>, a: real, k: nat)
    requires SelectionValid(s, |items|)
    ensures SelectionValid(Press(s, a), |items|)
    ensures SelectionValid(Move(s, a), |items|)
    ensures SelectionValid(Release(s, items).state, |items|)
    ensures k < |items| ==> SelectionValid(Click(s, items, k).state, |items|)
  {
  }

  // ---------------------------------------------------------------------------
  // Sequences of events.

  /** A pointer or click event delivered to the menu. */
  datatype Event = PointerDown(angle: real) | PointerMove(angle: real) | PointerUp | ItemClick(index: nat)

  /** Clicks can only reach items that are drawn. */
  predicate Clickable(events: seq<Event>, count: nat)
  {
    forall i :: 0 <= i < |events| && events[i].ItemClick? ==> events[i].index < count
  }

  /** The reaction of the menu to one event. */
  function Step(s: DialState, items: seq<MenuItem>, e: Event): (r: Reaction)
    requires e.ItemClick? ==> e.index < |items|
    ensures (e.PointerDown? || e.PointerMove?) ==> r.report == None
  {
    match e
    case PointerDown(a) => Reaction(Press(s, a), None)
    case PointerMove(a) => Reaction(Move(s, a), None)
    case PointerUp => Release(s, items)
    case ItemClick(k) => Click(s, items, k)
  }

  /** The final state after a sequence of events, and the items handed to
      `onSelect` in the order the handlers hand them over: a click passes its
      item at once, a release schedules its item for 300 ms later. */
  datatype Trace = Trace(state: DialState, reports: seq<MenuItem>)

  function Reported(report: Option<MenuItem>): seq<MenuItem>
  {
    if report.Some? then [report.value] else []
  }

  function Run(s: DialState, items: seq<MenuItem>, events: seq<Event>): (t: Trace)
    requires Clickable(events, |items|)
    ensures |t.reports| <= |events|
    decreases |events|
  {
    if events == [] then Trace(s, [])
    else
      var first := Step(s, items, events[0]);
      var rest := Run(first.state, items, events[1..]);
      Trace(rest.state, Reported(first.report) + rest.reports)
  }

  /** Running two sequences one after the other is running their
      concatenation. */
  lemma {:induction false} RunConcat(s: DialState, items: seq<MenuItem>, e1: seq<Event>, e2: seq<Event>)
    requires Clickable(e1, |items|) && Clickable(e2, |items|)
    ensures Clickable(e1 + e2, |items|)
    ensures Run(s, items, e1 + e2).state == Run(Run(s, items, e1).state, items, e2).state
    ensures Run(s, items, e1 + e2).reports
         == Run(s, items, e1).reports + Run(Run(s, items, e1).state, items, e2).reports
    decreases |e1|
  {
    assert Clickable(e1 + e2, |items|) by {
      forall i | 0 <= i < |e1 + e2| && (e1 + e2)[i].ItemClick?
        ensures (e1 + e2)[i].index < |items|
      {
        if i >= |e1| {
          assert (e1 + e2)[i] == e2[i - |e1|];
        }
      }
    }
    if e1 != [] {
      assert (e1 + e2)[1..] == e1[1..] + e2;
      var first := Step(s, items, e1[0]);
      assert Clickable(e1[1..], |items|) by {
        forall i | 0 <= i < |e1[1..]| && e1[1..][i].ItemClick?
          ensures e1[1..][i].index < |items|
        {
          assert e1[1..][i] == e1[i + 1];
        }
      }
      RunConcat(first.state, items, e1[1..], e2);
    } else {
      assert e1 + e2 == e2;
    }
  }

  /** Every sequence of events keeps the selected index within the items. */
  lemma {:induction false} RunKeepsSelectionValid(s: DialState, items: seq<MenuItem>, events: seq<Event>)
    requires Clickable(events, |items|) && SelectionValid(s, |items|)
    ensures SelectionValid(Run(s, items, events).state, |items|)
    decreases |events|
  {
    if events != [] {
      var first := Step(s, items, events[0]);
      assert SelectionValid(first.state, |items|) by {
        match events[0]
        case PointerDown(a) =>
        case PointerMove(a) =>
        case PointerUp =>
        case ItemClick(k) =>
      }
      assert Clickable(events[1..], |items|) by {
        forall i | 0 <= i < |events[1..]| && events[1..][i].ItemClick?
          ensures events[1..][i].index < |items|
        {
          assert events[1..][i] == events[i + 1];
        }
      }
      RunKeepsSelectionValid(first.state, items, events[1..]);
    }
  }

  /** Only pointer moves. */
  predicate AllMoves(events: seq<Event>)
  {
    forall i :: 0 <= i < |events| ==> events[i].PointerMove?
  }

  /** Moving the pointer during a drag reports nothing and keeps the drag,
      its anchor and the selection; the dial rests where the last move put
      it. */
  lemma {:induction false} DragReportsNothing(s: DialState, items: seq<MenuItem>, moves: seq<Event>)
    requires s.dragging && AllMoves(moves)
    ensures Clickable(moves, |items|)
    ensures Run(s, items, moves).reports == []
    ensures Run(s, items, moves).state
         == (if moves == [] then s else Move(s, moves[|moves| - 1].angle))
    decreases |moves|
  {
    if moves != [] {
      assert AllMoves(moves[1..]) by {
        forall i | 0 <= i < |moves[1..]| ensures moves[1..][i].PointerMove? {
          assert moves[1..][i] == moves[i + 1];
        }
      }
      assert moves[0].PointerMove?;
      DragReportsNothing(Move(s, moves[0].angle), items, moves[1..]);
      if moves[1..] != [] {
        assert moves[1..][|moves[1..]| - 1] == moves[|moves| - 1];
        MovesAreAbsolute(s, moves[0].angle, moves[|moves| - 1].angle);
      }
    }
  }

  /** A complete gesture, a press, any number of moves and a release,
      reports exactly one item when there are items and none otherwise, and
      leaves the dial at rest. */
  lemma GestureReportsOnce(s: DialState, items: seq<MenuItem>, a0: real, moves: seq<Event>)
    requires AllMoves(moves)
    ensures Clickable([PointerDown(a0)] + moves + [PointerUp], |items|)
    ensures !Run(s, items, [PointerDown(a0)] + moves + [PointerUp]).state.dragging
    ensures |Run(s, items, [PointerDown(a0)] + moves + [PointerUp]).reports|
         == (if 0 < |items| then 1 else 0)
  {
    var down := [PointerDown(a0)];
    var up := [PointerUp];
    var pressed := Press(s, a0);
    DragReportsNothing(pressed, items, moves);
    assert Run(s, items, down) == Trace(pressed, []);
    RunConcat(s, items, down, moves);
    var dragged := Run(s, items, down + moves).state;
    assert dragged.dragging;
    assert Run(dragged, items, up) == Trace(Release(dragged, items).state, Reported(Release(dragged, items).report));
    RunConcat(s, items, down + moves, up);
  }

  /** A click on an item begins with a mouse-down on the dial, which starts
      a drag, and the mouse-up ends that drag before the item's `onClick`
      runs. So one click hands two items to `onSelect`: the mouse-up
      schedules the item the dial snaps to, then the `onClick` passes the
      clicked one, which stays selected. The scheduled item arrives 300 ms
      later, after the clicked one. */
  lemma ClickAlsoReleases(s: DialState, items: seq<MenuItem>, a: real, k: nat)
    requires k < |items|
    ensures Clickable([PointerDown(a), PointerUp, ItemClick(k)], |items|)
    ensures Run(s, items, [PointerDown(a), PointerUp, ItemClick(k)]).reports
         == [items[NearestIndex(s.rotation, SlotsOf(|items|))], items[k]]
    ensures Run(s, items, [PointerDown(a), PointerUp, ItemClick(k)]).state.selected == Some(k)
  {
    var events := [PointerDown(a), PointerUp, ItemClick(k)];
    var pressed := Press(s, a);
    ReleaseSelectsNearest(pressed, items, k);
    var released := Release(pressed, items);
    var clicked := Click(released.state, items, k);
    assert events[1..] == [PointerUp, ItemClick(k)];
    assert events[1..][1..] == [ItemClick(k)];
    assert [ItemClick(k)][1..] == [];
    assert Run(released.state, items, [ItemClick(k)]) == Trace(clicked.state, [items[k]]);
    assert Run(pressed, items, events[1..])
        == Trace(clicked.state, [items[NearestIndex(s.rotation, SlotsOf(|items|))], items[k]]);
  }

  /** The demonstration menu has eight items; a drag from 0 to 47 degrees
      settles on the second item at 45 degrees. */
  lemma EightItemDrag(items: seq<MenuItem>)
    requires |items| == 8
    ensures Release(Move(Press(Initial, 0.0), 47.0), items)
         == Reaction(DialState(45.0, false, 0.0, Some(1)), Some(items[1]))
  {
    var dragged := DialState(47.0, true, 0.0, None);
    assert Move(Press(Initial, 0.0), 47.0) == dragged;
    EightSlotsAt47();
    ReleaseSelectsNearest(dragged, items, 0);
    assert Release(dragged, items).state.selected == Some(1);
  }

  /** The arithmetic of the drag above: 47 degrees is nearest to slot 1 of
      8, at 45 degrees. */
  lemma EightSlotsAt47()
    ensures NearestIndex(47.0, SlotsOf(8)) == 1 && SlotsOf(8).Angle(1) == 45.0
  {
    assert SlotsOf(8).width == 45.0;
    NormalizeInTurn(47.0);
    JsRoundUnique(SlotsOf(8).Measure(47.0), 1);
  }

  /** On the same menu a drag to -30 degrees settles on the last item, and a
      drag to 350 degrees wraps round to the first. */
  lemma EightItemNegativeAndWrap(s: DialState, items: seq<MenuItem>)
    requires s.dragging && |items| == 8
    ensures Release(s.(rotation := -30.0), items).state.selected == Some(7)
    ensures Release(s.(rotation := -30.0), items).state.rotation == 315.0
    ensures Release(s.(rotation := 350.0), items).state.selected == Some(0)
    ensures Release(s.(rotation := 350.0), items).state.rotation == 0.0
  {
    var sl := SlotsOf(8);
    assert sl.width == 45.0;
    NormalizeUnique(-30.0, 330.0, -1);
    JsRoundUnique(sl.Measure(330.0), 7);
    NormalizeInTurn(350.0);
    WrapToFirstSlot(350.0, sl);
  }

  // ---------------------------------------------------------------------------
  // The component, with its state updated in place.

  class Dial {
    const items: seq<MenuItem>
    const size: Size
    var rotation: real
    var dragging: bool
    var startAngle: real
    var selected: Option<nat>

    function State(): DialState
      reads this
    {
      DialState(rotation, dragging, startAngle, selected)
    }

    ghost predicate Valid()
      reads this
    {
      SelectionValid(State(), |items|)
    }

    constructor(items: seq<MenuItem>, size: Size)
      ensures this.items == items && this.size == size
      ensures State() == Initial && Valid()
    {
      this.items := items;
      this.size := size;
      rotation := 0.0;
      dragging := false;
      startAngle := 0.0;
      selected := None;
    }

    /** A dial with the default size preset, `md`. */
    constructor WithDefaultSize(items: seq<MenuItem>)
      ensures this.items == items && this.size == Md
      ensures State() == Initial && Valid()
    {
      this.items := items;
      size := Md;
      rotation := 0.0;
      dragging := false;
      startAngle := 0.0;
      selected := None;
    }

    /** handleMouseDown / handleTouchStart with the pointer at `angle`. */
    method PressAt(angle: real)
      requires Valid()
      modifies this
      ensures Valid() && State() == Press(old(State()), angle)
    {
      dragging := true;
      startAngle := angle - rotation;
    }

    /** handleMouseMove with the pointer at `angle`. */
    method MoveTo(angle: real)
      requires Valid()
      modifies this
      ensures Valid() && State() == Move(old(State()), angle)
    {
      if !dragging {
        return;
      }
      rotation := angle - startAngle;
    }

    /** handleMouseUp; `report` is the item later passed to `onSelect`. */
    method ReleaseDrag() returns (report: Option<MenuItem>)
      requires Valid()
      modifies this
      ensures Valid() && Reaction(State(), report) == Release(old(State()), items)
      ensures report.Some? ==> SelectedLabel() == Some(report.value.caption)
      ensures report.None? ==> SelectedLabel() == old(SelectedLabel())
    {
      if !dragging {
        return None;
      }
      dragging := false;
      report := None;
      if |items| > 0 {
        var slots := SlotsOf(|items|);
        var nearest := NearestIndex(rotation, slots);
        AngleInTurn(slots, nearest);
        rotation := slots.Angle(nearest);
        selected := Some(nearest);
        report := Some(items[nearest]);
      }
    }

    /** The `onClick` of item `k`; the item is passed to `onSelect` at once. */
    method ClickItem(k: nat) returns (report: MenuItem)
      requires Valid() && k < |items|
      modifies this
      ensures Valid() && Reaction(State(), Some(report)) == Click(old(State()), items, k)
      ensures SelectedLabel() == Some(report.caption)
    {
      selected := Some(k);
      report := items[k];
    }

    /** The label shown under the centre caption: the selected item's label,
        when there is a selection. */
    function SelectedLabel(): (l: Option<string>)
      reads this
      requires Valid()
    {
      if selected.Some? then Some(items[selected.value].caption) else None
    }

    /** Where item `index` is drawn at the current rotation. */
    function Position(index: nat): (p: Polar)
      reads this
      requires index < |items|
      ensures p.angle == SlotsOf(|items|).Angle(index) + rotation
      ensures p.radius == Radius(size)
    {
      Placement(index, |items|, rotation, size)
    }
  }
}
