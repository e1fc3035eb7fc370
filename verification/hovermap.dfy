/** The hover state and the two operations that resolve it from a ray
    hit: `updateMap`, which scans the countries for the first containing
    one that differs from the current one, and `render`, which runs that
    scan when hovering is enabled and turns hovering off on touch screens. */
module HoverMap {
  import opened Wrappers
  import opened Geometry
  import opened Viewport
  import opened Countries

  /** The loaded map: the outlines in document order, the browser's
      point-in-fill test of outline `i` (not modelled, taken as given) and
      whether the tweening helper is present. */
  datatype Globe = Globe(countries: seq<Country>, inFill: (nat, MapPoint) -> bool, tween: bool)

  /** Normalised pointer position used for ray casting. */
  datatype Pointer = Pointer(x: real, y: real)

  /** The position the pointer is reset to when a drag starts. */
  const Sentinel := Pointer(-1.0, -1.0)

  /** Everything the handlers read and write: the hovered index, the two
      flags, the pointer, the index whose silhouette was last requested
      for the overlay, the markup last assigned to the name label
      (`caption`) and the viewport size. */
  datatype State = State(
    hovered: nat,
    hoverable: bool,
    touch: bool,
    pointer: Pointer,
    overlay: nat,
    caption: string,
    size: Size)

  /** The markup the name label holds after `innerHTML` is set to an
      attribute value: the value itself, or the empty string for `null`.
      How the browser parses that markup is not modelled. */
  function Display(name: Option<string>): (r: string)
    ensures name.Some? ==> r == name.value
    ensures name.None? ==> r == ""
  {
    name.GetOr("")
  }

  /** Country `i` stops the scan for point `p` while `current` is hovered:
      it passes the prefilter, contains the point, and is not `current`. */
  predicate Selectable(g: Globe, current: nat, p: MapPoint, i: nat) {
    && i < |g.countries|
    && Prefilter(g.countries[i].box, p)
    && g.inFill(i, p)
    && i != current
  }

  /** The scan of `updateMap` from index `i` on: the first selectable
      index, if any. */
  function FirstSelectable(g: Globe, current: nat, p: MapPoint, i: nat): (r: Option<nat>)
    requires i <= |g.countries|
    ensures r.Some? ==> i <= r.value < |g.countries| && Selectable(g, current, p, r.value)
    ensures r.Some? ==> forall j :: i <= j < r.value ==> !Selectable(g, current, p, j)
    ensures r.None? ==> forall j :: i <= j < |g.countries| ==> !Selectable(g, current, p, j)
    decreases |g.countries| - i
  {
    if i == |g.countries| then None
    else if Selectable(g, current, p, i) then Some(i)
    else FirstSelectable(g, current, p, i + 1)
  }

  /** Hover country `i`: record it, request its silhouette for the overlay
      and show its name. */
  function Highlight(g: Globe, s: State, i: nat): (r: State)
    requires i < |g.countries|
  {
    s.(hovered := i, overlay := i, caption := Display(g.countries[i].name))
  }

  /** `updateMap`: either nothing changes (no country other than the
      hovered one contains the point), or the hovered index becomes the
      lowest selectable index and the overlay and label follow it. */
  function UpdateMap(g: Globe, s: State, uv: UV): (r: State)
    ensures r.hoverable == s.hoverable && r.touch == s.touch
    ensures r.pointer == s.pointer && r.size == s.size
    ensures r.hovered == s.hovered ==>
              r == s && forall j :: 0 <= j < |g.countries| ==> !Selectable(g, s.hovered, ToMapPoint(uv), j)
    ensures r.hovered != s.hovered ==>
              && r.hovered < |g.countries|
              && Selectable(g, s.hovered, ToMapPoint(uv), r.hovered)
              && (forall j :: 0 <= j < r.hovered ==> !Selectable(g, s.hovered, ToMapPoint(uv), j))
              && r.overlay == r.hovered
              && r.caption == Display(g.countries[r.hovered].name)
  {
    match FirstSelectable(g, s.hovered, ToMapPoint(uv), 0)
    case None => s
    case Some(i) => Highlight(g, s, i)
  }

  /** When the hovered country contains the point the scan does not stop
      there: it moves on to the next country that contains it. */
  lemma UpdateMapSkipsCurrent(g: Globe, s: State, uv: UV, j: nat)
    requires Selectable(g, s.hovered, ToMapPoint(uv), j)
    requires forall k :: 0 <= k < j ==> !Selectable(g, s.hovered, ToMapPoint(uv), k)
    ensures UpdateMap(g, s, uv).hovered == j
  {
  }

  /** If exactly one country passes and contains the point, one update
      hovers it and a second update with the same hit changes nothing. */
  lemma UpdateMapSettlesOnUniqueMatch(g: Globe, s: State, uv: UV, i: nat)
    requires i < |g.countries|
    requires Prefilter(g.countries[i].box, ToMapPoint(uv)) && g.inFill(i, ToMapPoint(uv))
    requires forall j :: 0 <= j < |g.countries| && j != i ==>
               !(Prefilter(g.countries[j].box, ToMapPoint(uv)) && g.inFill(j, ToMapPoint(uv)))
    ensures UpdateMap(g, s, uv).hovered == i
    ensures UpdateMap(g, UpdateMap(g, s, uv), uv) == UpdateMap(g, s, uv)
  {
    var p := ToMapPoint(uv);
    var r := UpdateMap(g, s, uv);
    if s.hovered != i {
      UpdateMapSkipsCurrent(g, s, uv, i);
    }
    assert r.hovered == i;
  }

  /** Two countries that both contain a point, with nothing below the
      second containing it: a hover resting on that point alternates
      between them on every update, since the scan always skips the one
      currently hovered. */
  lemma UpdateMapAlternatesOnOverlap(g: Globe, s: State, uv: UV, a: nat, b: nat)
    requires a < b < |g.countries|
    requires s.hovered == a
    requires Prefilter(g.countries[a].box, ToMapPoint(uv)) && g.inFill(a, ToMapPoint(uv))
    requires Prefilter(g.countries[b].box, ToMapPoint(uv)) && g.inFill(b, ToMapPoint(uv))
    requires forall j :: 0 <= j < b && j != a ==>
               !(Prefilter(g.countries[j].box, ToMapPoint(uv)) && g.inFill(j, ToMapPoint(uv)))
    ensures UpdateMap(g, s, uv).hovered == b
    ensures UpdateMap(g, UpdateMap(g, s, uv), uv).hovered == a
  {
    UpdateMapSkipsCurrent(g, s, uv, b);
    var r := UpdateMap(g, s, uv);
    UpdateMapSkipsCurrent(g, r, uv, a);
  }

  /** Where every box has a positive extent the prefilter decides nothing:
      a country stops the scan exactly when it contains the point and is
      not the hovered one. */
  lemma SelectableIgnoresBoxes(g: Globe, current: nat, p: MapPoint)
    requires forall i :: 0 <= i < |g.countries| ==>
               g.countries[i].box.width > 0.0 || g.countries[i].box.height > 0.0
    ensures forall i: nat :: Selectable(g, current, p, i) <==>
              i < |g.countries| && g.inFill(i, p) && i != current
  {
  }

  /** `render` (minus the camera update and drawing): with hovering
      enabled and a hit, run `updateMap`; then, on a touch screen, turn
      hovering off. A miss or disabled hovering leaves the hover alone. */
  function Render(g: Globe, s: State, hit: Option<UV>): (r: State)
    ensures !s.hoverable || hit.None? ==>
              r.hovered == s.hovered && r.overlay == s.overlay && r.caption == s.caption
    ensures s.hoverable && hit.Some? ==>
              var u := UpdateMap(g, s, hit.value);
              r.hovered == u.hovered && r.overlay == u.overlay && r.caption == u.caption
    ensures r.hoverable <==> s.hoverable && !s.touch
    ensures r.touch == s.touch && r.pointer == s.pointer && r.size == s.size
  {
    var s1 := if s.hoverable && hit.Some? then UpdateMap(g, s, hit.value) else s;
    if s.touch && s1.hoverable then s1.(hoverable := false) else s1
  }
}
