/** The two-way mapping between backend and Chrome ids, kept as three records that are assigned and
    deleted key by key. */
module Mapping {
  import opened Common

  datatype Kind = Folder | Bookmark

  datatype Maps = Maps(chromeOf: map<Id, Id>, backendOf: map<Id, Id>, kindOf: map<Id, Kind>)

  function Assigned(m: Maps, backend: Id, chrome: Id, kind: Kind): Maps {
    Maps(m.chromeOf[backend := chrome], m.backendOf[chrome := backend], m.kindOf[backend := kind])
  }

  function BackendDropped(m: Maps, backend: Id): Maps {
    Maps(m.chromeOf - {backend},
         if backend in m.chromeOf then m.backendOf - {m.chromeOf[backend]} else m.backendOf,
         m.kindOf - {backend})
  }

  function ChromeDropped(m: Maps, chrome: Id): Maps {
    if chrome !in m.backendOf then m
    else Maps(m.chromeOf - {m.backendOf[chrome]}, m.backendOf - {chrome}, m.kindOf - {m.backendOf[chrome]})
  }

  function AllChromeDropped(m: Maps, ids: seq<Id>): Maps {
    if ids == [] then m
    else ChromeDropped(AllChromeDropped(m, ids[..|ids| - 1]), ids[|ids| - 1])
  }

  function AllBackendDropped(m: Maps, ids: seq<Id>): Maps {
    if ids == [] then m
    else BackendDropped(AllBackendDropped(m, ids[..|ids| - 1]), ids[|ids| - 1])
  }

  // A bijection, with a kind for exactly the mapped backend ids.
  ghost predicate TwoWay(m: Maps) {
    && (forall b | b in m.chromeOf :: m.chromeOf[b] in m.backendOf && m.backendOf[m.chromeOf[b]] == b)
    && (forall c | c in m.backendOf :: m.backendOf[c] in m.chromeOf && m.chromeOf[m.backendOf[c]] == c)
    && m.kindOf.Keys == m.chromeOf.Keys
  }

  // Assigning keeps the bijection exactly when the pair is new on both sides or already there.
  lemma AssignKeepsTwoWayIff(m: Maps, backend: Id, chrome: Id, kind: Kind)
    requires TwoWay(m)
    ensures TwoWay(Assigned(m, backend, chrome, kind)) <==>
            (backend !in m.chromeOf && chrome !in m.backendOf) || (backend in m.chromeOf && m.chromeOf[backend] == chrome)
  {
    var a := Assigned(m, backend, chrome, kind);
    if backend in m.chromeOf && m.chromeOf[backend] != chrome {
      assert m.chromeOf[backend] in a.backendOf;
    } else if backend !in m.chromeOf && chrome in m.backendOf {
      assert a.chromeOf[m.backendOf[chrome]] == chrome;
    }
  }

  // The mapping without the pairs whose Chrome id is gone.
  function Restricted(m: Maps, gone: set<Id>): Maps {
    var kept := map b | b in m.chromeOf && m.chromeOf[b] !in gone :: m.chromeOf[b];
    Maps(kept, m.backendOf - gone, map b | b in m.kindOf && b in kept :: m.kindOf[b])
  }

  lemma RestrictedStaysTwoWay(m: Maps, gone: set<Id>)
    requires TwoWay(m)
    ensures TwoWay(Restricted(m, gone))
  {
  }

  lemma DropOneRestricts(m: Maps, chrome: Id)
    requires TwoWay(m)
    ensures ChromeDropped(m, chrome) == Restricted(m, {chrome})
  {
  }

  lemma RestrictedTwice(m: Maps, a: set<Id>, b: set<Id>)
    ensures Restricted(Restricted(m, a), b) == Restricted(m, a + b)
  {
  }

  lemma ElementsNext(ids: seq<Id>, x: Id)
    ensures Elements(ids + [x]) == Elements(ids) + {x}
  {
  }

  lemma DropChromeNext(m: Maps, gone: set<Id>, chrome: Id)
    requires TwoWay(m)
    ensures ChromeDropped(Restricted(m, gone), chrome) == Restricted(m, gone + {chrome})
  {
    RestrictedStaysTwoWay(m, gone);
    DropOneRestricts(Restricted(m, gone), chrome);
    RestrictedTwice(m, gone, {chrome});
  }

  // Dropping Chrome ids one by one, in any order and with repeats, removes exactly their pairs.
  lemma {:induction false} AllChromeDroppedRestricts(m: Maps, ids: seq<Id>)
    requires TwoWay(m)
    ensures AllChromeDropped(m, ids) == Restricted(m, Elements(ids))
  {
    if ids == [] {
      RestrictedToAll(m);
    } else {
      var front, last := ids[..|ids| - 1], ids[|ids| - 1];
      AllChromeDroppedRestricts(m, front);
      DropChromeNext(m, Elements(front), last);
      assert ids == front + [last];
      ElementsNext(front, last);
    }
  }

  lemma RestrictedToAll(m: Maps)
    requires TwoWay(m)
    ensures Restricted(m, {}) == m
  {
  }

  // The Chrome ids a list of backend ids is mapped to.
  function ChromeIds(m: Maps, ids: seq<Id>): set<Id> {
    set b | b in ids && b in m.chromeOf :: m.chromeOf[b]
  }

  lemma ChromeIdsNext(m: Maps, ids: seq<Id>, b: Id)
    ensures ChromeIds(m, ids + [b]) == ChromeIds(m, ids) + if b in m.chromeOf then {m.chromeOf[b]} else {}
  {
    var after := ChromeIds(m, ids) + if b in m.chromeOf then {m.chromeOf[b]} else {};
    forall c | c in ChromeIds(m, ids + [b]) ensures c in after {
      var x :| x in ids + [b] && x in m.chromeOf && m.chromeOf[x] == c;
    }
    forall c | c in after ensures c in ChromeIds(m, ids + [b]) {
      if c in ChromeIds(m, ids) {
        var x :| x in ids && x in m.chromeOf && m.chromeOf[x] == c;
        assert x in ids + [b];
      } else {
        assert b in ids + [b];
      }
    }
  }

  lemma DropBackendNext(m: Maps, gone: set<Id>, b: Id)
    requires TwoWay(m)
    ensures BackendDropped(Restricted(m, gone), b) == Restricted(m, gone + if b in m.chromeOf then {m.chromeOf[b]} else {})
  {
    RestrictedStaysTwoWay(m, gone);
  }

  // Dropping backend ids one by one removes exactly their pairs.
  lemma {:induction false} AllBackendDroppedRestricts(m: Maps, ids: seq<Id>)
    requires TwoWay(m)
    ensures AllBackendDropped(m, ids) == Restricted(m, ChromeIds(m, ids))
  {
    if ids == [] {
      RestrictedToAll(m);
      assert ChromeIds(m, []) == {};
    } else {
      var front, last := ids[..|ids| - 1], ids[|ids| - 1];
      AllBackendDroppedRestricts(m, front);
      DropBackendNext(m, ChromeIds(m, front), last);
      assert ids == front + [last];
      ChromeIdsNext(m, front, last);
    }
  }

  // The three records of one workspace's projection.
  class ProjectionMaps {
    var chromeIdByBackendId: map<Id, Id>
    var backendIdByChromeId: map<Id, Id>
    var entityTypeByBackendId: map<Id, Kind>

    constructor ()
      ensures State() == Maps(map[], map[], map[]) && TwoWay(State())
    {
      chromeIdByBackendId, backendIdByChromeId, entityTypeByBackendId := map[], map[], map[];
    }

    function State(): Maps
      reads this
    {
      Maps(chromeIdByBackendId, backendIdByChromeId, entityTypeByBackendId)
    }

    method SetMapping(backend: Id, chrome: Id, kind: Kind)
      modifies this
      ensures State() == Assigned(old(State()), backend, chrome, kind)
      ensures chromeIdByBackendId == old(chromeIdByBackendId)[backend := chrome] && backendIdByChromeId == old(backendIdByChromeId)[chrome := backend]
    {
      chromeIdByBackendId := chromeIdByBackendId[backend := chrome];
      backendIdByChromeId := backendIdByChromeId[chrome := backend];
      entityTypeByBackendId := entityTypeByBackendId[backend := kind];
    }

    // A rebuild starts with all three records empty.
    method Clear()
      modifies this
      ensures chromeIdByBackendId.Keys == {} && backendIdByChromeId.Keys == {} && entityTypeByBackendId.Keys == {}
    {
      chromeIdByBackendId, backendIdByChromeId, entityTypeByBackendId := map[], map[], map[];
    }

    method RemoveMappingByBackendId(backend: Id)
      modifies this
      ensures State() == BackendDropped(old(State()), backend)
    {
      if backend in chromeIdByBackendId {
        backendIdByChromeId := backendIdByChromeId - {chromeIdByBackendId[backend]};
      }
      chromeIdByBackendId := chromeIdByBackendId - {backend};
      entityTypeByBackendId := entityTypeByBackendId - {backend};
    }

    method RemoveMappingsByBackendIds(ids: seq<Id>)
      modifies this
      ensures State() == AllBackendDropped(old(State()), ids)
    {
      for i := 0 to |ids|
        invariant State() == AllBackendDropped(old(State()), ids[..i])
      {
        RemoveMappingByBackendId(ids[i]);
        assert ids[..i + 1][..i] == ids[..i];
      }
      assert ids[..|ids|] == ids;
    }

    method RemoveMappingsByChromeIds(ids: seq<Id>)
      modifies this
      ensures State() == AllChromeDropped(old(State()), ids)
    {
      for i := 0 to |ids|
        invariant State() == AllChromeDropped(old(State()), ids[..i])
      {
        var chrome := ids[i];
        if chrome in backendIdByChromeId {
          var backend := backendIdByChromeId[chrome];
          backendIdByChromeId := backendIdByChromeId - {chrome};
          chromeIdByBackendId := chromeIdByBackendId - {backend};
          entityTypeByBackendId := entityTypeByBackendId - {backend};
        }
        assert ids[..i + 1][..i] == ids[..i];
      }
      assert ids[..|ids|] == ids;
    }
  }
}
