/** The ordered list of country outlines read from the map at load time,
    the name-to-link table built from it, and the lookup of a country by
    its name. One record per country replaces the parallel lists of
    outlines, boxes and textures, which share one index. */
module Countries {
  import opened Wrappers
  import opened Geometry

  /** A country outline: its `data-name` and `data-link` attributes
      (`None` when the attribute is absent) and its bounding box. */
  datatype Country = Country(name: Option<string>, link: Option<string>, box: Box)

  /** The link table only takes outlines whose name and link are both
      present and non-empty (both are truthy in JavaScript). */
  predicate Linked(c: Country) {
    c.name.Some? && c.name.value != "" && c.link.Some? && c.link.value != ""
  }

  /** `c` contributes an entry for `key` to the link table. */
  predicate Provides(c: Country, key: string) {
    Linked(c) && c.name.value == key
  }

  /** Some country contributes an entry for `key`. */
  ghost predicate Provided(cs: seq<Country>, key: string) {
    exists i :: 0 <= i < |cs| && Provides(cs[i], key)
  }

  /** `cs[i]` is the last country contributing an entry for `key`. */
  ghost predicate LastProvider(cs: seq<Country>, i: int, key: string) {
    && 0 <= i < |cs|
    && Provides(cs[i], key)
    && forall j :: i < j < |cs| ==> !Provides(cs[j], key)
  }

  /** The name-to-link table, filled in list order so that a later
      outline with the same name overwrites an earlier one. Every key and
      every link in it is non-empty. */
  function CountryLinks(cs: seq<Country>): (m: map<string, string>)
    ensures forall k :: k in m ==> k != "" && m[k] != ""
    decreases |cs|
  {
    if |cs| == 0 then map[]
    else
      var m := CountryLinks(cs[..|cs| - 1]);
      var c := cs[|cs| - 1];
      if Linked(c) then m[c.name.value := c.link.value] else m
  }

  /** A name has an entry exactly when some outline carries both that
      name and a link. */
  lemma {:induction false} LinksDomain(cs: seq<Country>, key: string)
    ensures key in CountryLinks(cs) <==> Provided(cs, key)
    decreases |cs|
  {
    if |cs| > 0 {
      var init := cs[..|cs| - 1];
      LinksDomain(init, key);
      if Provided(init, key) {
        var i :| 0 <= i < |init| && Provides(init[i], key);
        assert Provides(cs[i], key);
      }
      if Provided(cs, key) && !Provides(cs[|cs| - 1], key) {
        var i :| 0 <= i < |cs| && Provides(cs[i], key);
        assert i < |cs| - 1 && Provides(init[i], key);
      }
    }
  }

  /** The entry for a name is the link of the last outline carrying it. */
  lemma {:induction false} LinksLastWins(cs: seq<Country>, i: int, key: string)
    requires LastProvider(cs, i, key)
    ensures key in CountryLinks(cs) && CountryLinks(cs)[key] == cs[i].link.value
    decreases |cs|
  {
    var last := |cs| - 1;
    if i < last {
      var init := cs[..last];
      assert LastProvider(init, i, key) by {
        forall j | i < j < |init| ensures !Provides(init[j], key) {
          assert init[j] == cs[j];
        }
      }
      LinksLastWins(init, i, key);
      assert !Provides(cs[last], key);
    }
  }

  /** Both facts about the table at one name. */
  lemma LinksLookup(cs: seq<Country>, key: string)
    ensures key in CountryLinks(cs) <==> Provided(cs, key)
    ensures forall i :: LastProvider(cs, i, key) ==>
              key in CountryLinks(cs) && CountryLinks(cs)[key] == cs[i].link.value
  {
    LinksDomain(cs, key);
    forall i | LastProvider(cs, i, key)
      ensures key in CountryLinks(cs) && CountryLinks(cs)[key] == cs[i].link.value
    {
      LinksLastWins(cs, i, key);
    }
  }

  /** `findIndex` over the outlines' names from position `from` on:
      the first index whose name equals `name` (including two absent
      names, since `null === null`). */
  function IndexOfName(cs: seq<Country>, name: Option<string>, from: nat): (r: Option<nat>)
    requires from <= |cs|
    ensures r.Some? ==> from <= r.value < |cs| && cs[r.value].name == name
    ensures r.Some? ==> forall j :: from <= j < r.value ==> cs[j].name != name
    ensures r.None? ==> forall j :: from <= j < |cs| ==> cs[j].name != name
    decreases |cs| - from
  {
    if from == |cs| then None
    else if cs[from].name == name then Some(from)
    else IndexOfName(cs, name, from + 1)
  }
}
