/** The globe's event handlers as one state machine: the initial state
    built by `initScene`, one pure handler per event, `Step` dispatching an
    event, and `Run` folding a sequence of events. The only effect besides
    the new state is a navigation request from a click. */
module Interaction {
  import opened Wrappers
  import opened Geometry
  import opened Viewport
  import opened Countries
  import opened HoverMap

  /** Events reaching the globe. `Frame` is one call of `render`, carrying
      what the ray cast from the current pointer hit this frame;
      `TweenComplete` is the `onComplete` callback of the bounce-back tween,
      which only exists when the tweening helper is present. */
  datatype Event =
    | TouchStart
    | MouseMove(to: Pointer)
    | Click(at: Pointer)
    | DragStart
    | DragEnd
    | TweenComplete
    | Frame(hit: Option<UV>)
    | CardEnter(card: Option<string>)
    | Resize(innerWidth: int, innerHeight: int)

  /** The state after an event and the link the page navigates to, if any. */
  datatype Outcome = Outcome(state: State, navigate: Option<string>)

  /** The hover index, overlay and label always describe the same
      country, the index is a valid one (or 0 on an empty map), and the
      viewport is a clamped square. */
  predicate Consistent(g: Globe, s: State) {
    && (if |g.countries| == 0 then s.hovered == 0
        else s.hovered < |g.countries| && s.caption == Display(g.countries[s.hovered].name))
    && s.overlay == s.hovered
    && s.size.width == s.size.height
    && MinSide <= s.size.width <= MaxSide
  }

  /** The state after `initScene`: country 0 hovered, its name shown (the
      label keeps its markup `initialCaption` when there is no country),
      its silhouette requested, hovering enabled, and the viewport sized
      from the window. */
  function Init(g: Globe, innerWidth: int, innerHeight: int, initialCaption: string): (s: State)
    ensures Consistent(g, s)
    ensures s.hovered == 0 && s.hoverable && !s.touch && s.pointer == Sentinel
    ensures |g.countries| == 0 ==> s.caption == initialCaption
    ensures s.size == UpdateSize(innerWidth, innerHeight)
  {
    State(
      hovered := 0,
      hoverable := true,
      touch := false,
      pointer := Sentinel,
      overlay := 0,
      caption := if |g.countries| > 0 then Display(g.countries[0].name) else initialCaption,
      size := UpdateSize(innerWidth, innerHeight))
  }

  /** Touch start marks the device as a touch screen; nothing else changes. */
  function OnTouchStart(s: State): (r: State)
    ensures r.touch
    ensures r.(touch := s.touch) == s
  {
    s.(touch := true)
  }

  /** The controls' `start` handler: hovering off and the pointer back at
      the sentinel; the hover itself is kept. */
  function OnDragStart(s: State): (r: State)
    ensures !r.hoverable && r.pointer == Sentinel
    ensures r.hovered == s.hovered && r.overlay == s.overlay && r.caption == s.caption
    ensures r.touch == s.touch && r.size == s.size
  {
    s.(hoverable := false, pointer := Sentinel)
  }

  /** The controls' `end` handler: without the tweening helper hovering is
      back on at once; with it, only the tween's completion turns it on. */
  function OnDragEnd(g: Globe, s: State): (r: State)
    ensures !g.tween ==> r.hoverable && r.(hoverable := s.hoverable) == s
    ensures g.tween ==> r == s
  {
    if g.tween then s else s.(hoverable := true)
  }

  /** The bounce-back tween finished: hovering is back on. */
  function OnTweenComplete(g: Globe, s: State): (r: State)
    ensures g.tween ==> r.hoverable && r.(hoverable := s.hoverable) == s
    ensures !g.tween ==> r == s
  {
    if g.tween then s.(hoverable := true) else s
  }

  /** A card's `mouseenter`: the first country whose name equals the
      card's becomes hovered, with its silhouette and the card's name; a
      name no country bears changes nothing. */
  function OnCardEnter(g: Globe, s: State, card: Option<string>): (r: State)
    ensures (forall j :: 0 <= j < |g.countries| ==> g.countries[j].name != card) ==> r == s
    ensures (exists j :: 0 <= j < |g.countries| && g.countries[j].name == card) ==>
              && r.hovered < |g.countries|
              && g.countries[r.hovered].name == card
              && (forall j :: 0 <= j < r.hovered ==> g.countries[j].name != card)
              && r.overlay == r.hovered
              && r.caption == Display(card)
              && r.(hovered := s.hovered, overlay := s.overlay, caption := s.caption) == s
  {
    match IndexOfName(g.countries, card, 0)
    case None => s
    case Some(i) => s.(hovered := i, overlay := i, caption := Display(card))
  }

  /** The hovered country's name, when it has one. */
  function HoveredName(g: Globe, s: State): (r: Option<string>) {
    if s.hovered < |g.countries| then g.countries[s.hovered].name else None
  }

  /** A click moves the pointer and, using the hovered index rather than a
      fresh hit test, navigates to the link table's entry for the hovered
      country's name: present exactly when some outline carries that name
      with a link, and then the last such outline's link. */
  function OnClick(g: Globe, s: State, at: Pointer): (r: Outcome)
    ensures r.state == s.(pointer := at)
    ensures r.navigate.Some? <==>
              HoveredName(g, s).Some? && Provided(g.countries, HoveredName(g, s).value)
    ensures forall i :: HoveredName(g, s).Some? && LastProvider(g.countries, i, HoveredName(g, s).value) ==>
              r.navigate == Some(g.countries[i].link.value)
  {
    var links := CountryLinks(g.countries);
    var name := HoveredName(g, s);
    var target := if name.Some? && name.value != "" && name.value in links
                  then Some(links[name.value]) else None;
    if name.Some? then
      LinksLookup(g.countries, name.value);
      Outcome(s.(pointer := at), target)
    else
      Outcome(s.(pointer := at), target)
  }

  /** One event. */
  function Step(g: Globe, s: State, e: Event): (r: Outcome)
    ensures s.touch ==> r.state.touch
    ensures r.navigate.Some? ==> e.Click?
    ensures r.state.hovered != s.hovered ==> e.Frame? || e.CardEnter?
    ensures e.Frame? && s.touch ==> !r.state.hoverable
    ensures e.Resize? ==> r.state == s.(size := UpdateSize(e.innerWidth, e.innerHeight))
    ensures e.MouseMove? ==> r.state == s.(pointer := e.to)
  {
    match e
    case TouchStart => Outcome(OnTouchStart(s), None)
    case MouseMove(to) => Outcome(s.(pointer := to), None)
    case Click(at) => OnClick(g, s, at)
    case DragStart => Outcome(OnDragStart(s), None)
    case DragEnd => Outcome(OnDragEnd(g, s), None)
    case TweenComplete => Outcome(OnTweenComplete(g, s), None)
    case Frame(hit) => Outcome(Render(g, s, hit), None)
    case CardEnter(card) => Outcome(OnCardEnter(g, s, card), None)
    case Resize(w, h) => Outcome(s.(size := UpdateSize(w, h)), None)
  }

  /** The state after a sequence of events. */
  function Run(g: Globe, s: State, events: seq<Event>): (r: State)
    decreases |events|
  {
    if |events| == 0 then s else Run(g, Step(g, s, events[0]).state, events[1..])
  }

  lemma {:induction false} RunAppend(g: Globe, s: State, a: seq<Event>, b: seq<Event>)
    ensures Run(g, s, a + b) == Run(g, Run(g, s, a), b)
    decreases |a|
  {
    if |a| > 0 {
      assert (a + b)[1..] == a[1..] + b;
      RunAppend(g, Step(g, s, a[0]).state, a[1..], b);
    } else {
      assert a + b == b;
    }
  }

  /** Every event keeps the hover index, overlay and label in agreement. */
  lemma StepKeepsConsistent(g: Globe, s: State, e: Event)
    requires Consistent(g, s)
    ensures Consistent(g, Step(g, s, e).state)
  {
    if e.CardEnter? && exists j :: 0 <= j < |g.countries| && g.countries[j].name == e.card {
      var r := OnCardEnter(g, s, e.card);
      assert g.countries[r.hovered].name == e.card;
    }
  }

  lemma {:induction false} RunKeepsConsistent(g: Globe, s: State, events: seq<Event>)
    requires Consistent(g, s)
    ensures Consistent(g, Run(g, s, events))
    decreases |events|
  {
    if |events| > 0 {
      StepKeepsConsistent(g, s, events[0]);
      RunKeepsConsistent(g, Step(g, s, events[0]).state, events[1..]);
    }
  }

  /** Nothing resets the touch flag. */
  lemma {:induction false} TouchIsPermanent(g: Globe, s: State, events: seq<Event>)
    requires s.touch
    ensures Run(g, s, events).touch
    decreases |events|
  {
    if |events| > 0 {
      TouchIsPermanent(g, Step(g, s, events[0]).state, events[1..]);
    }
  }

  /** Once a touch start has happened, the flag is set for every later state. */
  lemma TouchStartIsPermanent(g: Globe, s: State, before: seq<Event>, after: seq<Event>)
    ensures Run(g, s, before + [TouchStart] + after).touch
  {
    RunAppend(g, s, before + [TouchStart], after);
    RunAppend(g, s, before, [TouchStart]);
    TouchIsPermanent(g, Run(g, s, before + [TouchStart]), after);
  }

  /** The events that turn hovering back on. */
  predicate Reenables(g: Globe, e: Event) {
    (e.DragEnd? && !g.tween) || (e.TweenComplete? && g.tween)
  }

  /** On a touch screen with hovering off, the hover index, overlay and
      label stay put until something turns hovering back on or a card
      is entered: no pointer motion, click or frame moves them. */
  lemma {:induction false} TouchKeepsHoverFrozen(g: Globe, s: State, events: seq<Event>)
    requires s.touch && !s.hoverable
    requires forall k :: 0 <= k < |events| ==> !Reenables(g, events[k]) && !events[k].CardEnter?
    ensures var r := Run(g, s, events);
            r.hovered == s.hovered && r.overlay == s.overlay && r.caption == s.caption && !r.hoverable
    decreases |events|
  {
    if |events| > 0 {
      var e := events[0];
      assert !Reenables(g, e) && !e.CardEnter?;
      TouchKeepsHoverFrozen(g, Step(g, s, e).state, events[1..]);
    }
  }

  /** Touch does not disable hover resolution for good: after a drag ends
      (without the tweening helper) and the pointer moves onto the globe,
      one frame resolves the pointer's hit before the flag turns hovering
      off again. */
  lemma DragEndReenablesHoverOnTouch()
    ensures
      var box := Box(0.0, 0.0, 10.0, 10.0);
      var g := Globe([Country(Some("A"), None, box), Country(Some("B"), None, box)],
                     (i: nat, p: MapPoint) => i == 1, false);
      var s0 := Init(g, 800, 600, "");
      var s1 := Run(g, s0, [TouchStart, Frame(None), DragStart, DragEnd,
                            MouseMove(Pointer(0.0, 0.0)), Frame(Some(UV(0.5, 0.5)))]);
      s1.touch && s1.hovered == 1 && s1.caption == "B" && !s1.hoverable
  {
    var box := Box(0.0, 0.0, 10.0, 10.0);
    var g := Globe([Country(Some("A"), None, box), Country(Some("B"), None, box)],
                   (i: nat, p: MapPoint) => i == 1, false);
    var s0 := Init(g, 800, 600, "");
    var prefix := [TouchStart, Frame(None), DragStart, DragEnd, MouseMove(Pointer(0.0, 0.0))];
    var t := Run(g, s0, prefix);
    assert t.hoverable && t.touch && t.hovered == 0;
    var uv := UV(0.5, 0.5);
    assert Selectable(g, 0, ToMapPoint(uv), 1);
    assert !Selectable(g, 0, ToMapPoint(uv), 0);
    UpdateMapSkipsCurrent(g, t, uv, 1);
    RunAppend(g, s0, prefix, [Frame(Some(uv))]);
    assert prefix + [Frame(Some(uv))]
        == [TouchStart, Frame(None), DragStart, DragEnd, MouseMove(Pointer(0.0, 0.0)), Frame(Some(uv))];
  }

  /** A click's navigation depends on the hovered country only, not on
      where the click landed. */
  lemma ClickIgnoresPosition(g: Globe, s: State, p: Pointer, q: Pointer)
    ensures OnClick(g, s, p).navigate == OnClick(g, s, q).navigate
  {
  }
}
