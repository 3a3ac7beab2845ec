/**
 * Terminal renderer (lane-data.py, the `console_cb` callback of the
 * `live-status` command).
 *
 * For one batch of lane events: load the lane metadata of the lane group,
 * sort the events descending by the second `_`-segment of their lane id
 * (compared as strings), drop events of unknown lanes, group the rest by
 * lane type in order of first appearance, and render one row per event.
 * The printed text is modelled as the list of (header, rows) sections.
 */
module Console {

  import opened Wrappers
  import opened Strings
  import opened LaneMetadata
  import opened LiveStream

  /** The sort key `lane_event[0].split("_")[1]` exists. */
  predicate Keyed(e: LaneEvent)
  {
    '_' in e.laneId
  }

  predicate AllKeyed(s: seq<LaneEvent>)
  {
    forall e :: e in s ==> Keyed(e)
  }

  /**
   * The sort key: the second `_`-delimited segment of the lane id, as a
   * string. Only consulted for keyed events (`Render` checks `AllKeyed`
   * before sorting); an unkeyed event gets the empty key.
   */
  function Key(e: LaneEvent): string
  {
    match SecondSegment(e.laneId, '_')
    case Some(k) => k
    case None => ""
  }

  /**
   * For a keyed event the key is the segment between the first `_` of the
   * lane id and the next `_` (or the end).
   */
  lemma KeySegment(e: LaneEvent)
    requires Keyed(e)
    ensures var i := |BeforeFirst(e.laneId, '_')|;
            && i < |e.laneId| && e.laneId[i] == '_' && '_' !in e.laneId[..i]
            && Key(e) <= e.laneId[i + 1..] && '_' !in Key(e)
            && (i + 1 + |Key(e)| == |e.laneId| || e.laneId[i + 1 + |Key(e)|] == '_')
  {
    var i := |BeforeFirst(e.laneId, '_')|;
    assert BeforeFirst(e.laneId, '_') == e.laneId[..i];
  }

  /** The lane id of the first event whose sort key raises IndexError. */
  function FirstUnkeyed(s: seq<LaneEvent>): (id: string)
    requires !AllKeyed(s)
    ensures '_' !in id
    ensures exists i :: 0 <= i < |s| && s[i].laneId == id && AllKeyed(s[..i])
    decreases |s|
  {
    if !Keyed(s[0]) then
      assert AllKeyed(s[..0]);
      s[0].laneId
    else
      assert !AllKeyed(s[1..]) by {
        var e :| e in s && !Keyed(e);
        assert e != s[0] && e in s[1..];
      }
      var id := FirstUnkeyed(s[1..]);
      assert exists i :: 0 <= i < |s| && s[i].laneId == id && AllKeyed(s[..i]) by {
        var i :| 0 <= i < |s[1..]| && s[1..][i].laneId == id && AllKeyed(s[1..][..i]);
        assert s[..i + 1] == [s[0]] + s[1..][..i];
      }
      id
  }

  /**
   * One element of the list `sorted` works on: the event decorated with its
   * key, which Python computes once per element.
   */
  datatype SortEntry = SortEntry(key: string, event: LaneEvent)

  function Decorate(s: seq<LaneEvent>): (r: seq<SortEntry>)
    ensures |r| == |s|
    ensures forall i :: 0 <= i < |s| ==> r[i] == SortEntry(Key(s[i]), s[i])
    decreases |s|
  {
    if s == [] then [] else [SortEntry(Key(s[0]), s[0])] + Decorate(s[1..])
  }

  function Undecorate(es: seq<SortEntry>): (r: seq<LaneEvent>)
    ensures |r| == |es|
    ensures forall i :: 0 <= i < |es| ==> r[i] == es[i].event
    decreases |es|
  {
    if es == [] then [] else [es[0].event] + Undecorate(es[1..])
  }

  /** Every entry carries the key of its own event. */
  predicate KeysFaithful(es: seq<SortEntry>)
  {
    forall x :: x in es ==> x.key == Key(x.event)
  }

  /** `a` may precede `b` in a descending order: its key is not below that of `b`. */
  predicate NotBelow(a: SortEntry, b: SortEntry)
  {
    !Less(a.key, b.key)
  }

  predicate DescendingEntries(es: seq<SortEntry>)
  {
    forall i, j :: 0 <= i < j < |es| ==> NotBelow(es[i], es[j])
  }

  /** The entries with key `k`, in their order. */
  function WithKey(es: seq<SortEntry>, k: string): seq<SortEntry>
    decreases |es|
  {
    if es == [] then [] else (if es[0].key == k then [es[0]] else []) + WithKey(es[1..], k)
  }

  /** `x` placed before the first entry whose key is not larger than its own. */
  function Insert(x: SortEntry, t: seq<SortEntry>): (r: seq<SortEntry>)
    ensures multiset(r) == multiset([x] + t)
    decreases |t|
  {
    if t == [] || NotBelow(x, t[0]) then [x] + t
    else
      assert t == [t[0]] + t[1..];
      [t[0]] + Insert(x, t[1..])
  }

  /** The stable descending sort of the decorated list (insertion sort). */
  function SortEntries(es: seq<SortEntry>): (r: seq<SortEntry>)
    ensures multiset(r) == multiset(es)
    decreases |es|
  {
    if es == [] then []
    else
      assert es == [es[0]] + es[1..];
      Insert(es[0], SortEntries(es[1..]))
  }

  lemma InsertMembers(x: SortEntry, t: seq<SortEntry>)
    ensures forall e :: e in Insert(x, t) <==> e == x || e in t
  {
    var r := Insert(x, t);
    forall e ensures e in r <==> e == x || e in t {
      calc {
        e in r;
        e in multiset(r);
        e in multiset([x] + t);
        e in [x] + t;
      }
    }
  }

  /** Prepending an entry that is not below any of a descending list keeps it descending. */
  lemma DescendingCons(y: SortEntry, s: seq<SortEntry>)
    requires DescendingEntries(s)
    requires forall e :: e in s ==> NotBelow(y, e)
    ensures DescendingEntries([y] + s)
  {
    var r := [y] + s;
    forall i, j | 0 <= i < j < |r|
      ensures NotBelow(r[i], r[j])
    {
      assert r[j] == s[j - 1];
      if i > 0 {
        assert r[i] == s[i - 1];
      }
    }
  }

  lemma {:induction false} InsertDescending(x: SortEntry, t: seq<SortEntry>)
    requires DescendingEntries(t)
    ensures DescendingEntries(Insert(x, t))
    decreases |t|
  {
    if t == [] {
    } else if NotBelow(x, t[0]) {
      forall e | e in t ensures NotBelow(x, e) {
        var k :| 0 <= k < |t| && t[k] == e;
        if k > 0 {
          NotLessTransitive(x.key, t[0].key, e.key);
        }
      }
      DescendingCons(x, t);
    } else {
      var tail := t[1..];
      assert DescendingEntries(tail) by {
        forall i, j | 0 <= i < j < |tail| ensures NotBelow(tail[i], tail[j]) {
          assert tail[i] == t[i + 1] && tail[j] == t[j + 1];
        }
      }
      InsertDescending(x, tail);
      InsertMembers(x, tail);
      LessAsymmetric(x.key, t[0].key);
      forall e | e in tail ensures NotBelow(t[0], e) {
        var k :| 0 <= k < |tail| && tail[k] == e;
        assert t[k + 1] == e;
      }
      DescendingCons(t[0], Insert(x, tail));
    }
  }

  /** Filtering by key a list with a known first entry. */
  lemma WithKeyCons(x: SortEntry, t: seq<SortEntry>, k: string)
    ensures WithKey([x] + t, k) == (if x.key == k then [x] else []) + WithKey(t, k)
  {
    assert ([x] + t)[1..] == t;
  }

  /** Inserting `x` keeps the relative order of every key class, `x` first in its own. */
  lemma {:induction false} InsertStable(x: SortEntry, t: seq<SortEntry>, k: string)
    ensures WithKey(Insert(x, t), k) == WithKey([x] + t, k)
    decreases |t|
  {
    if t != [] && !NotBelow(x, t[0]) {
      var head, tail := t[0], t[1..];
      var ins := Insert(x, tail);
      assert Insert(x, t) == [head] + ins;
      assert t == [head] + tail;
      InsertStable(x, tail, k);
      LessIrreflexive(x.key);
      assert x.key != head.key;
      WithKeyCons(head, ins, k);
      WithKeyCons(x, tail, k);
      WithKeyCons(head, tail, k);
      WithKeyCons(x, t, k);
      if x.key == k {
        assert WithKey(Insert(x, t), k) == WithKey(ins, k);
        assert WithKey(t, k) == WithKey(tail, k);
      } else {
        assert WithKey(ins, k) == WithKey(tail, k);
      }
    }
  }

  /** The decorated sort is ordered and stable. */
  lemma {:induction false} SortEntriesCorrect(es: seq<SortEntry>)
    ensures DescendingEntries(SortEntries(es))
    ensures forall k :: WithKey(SortEntries(es), k) == WithKey(es, k)
    decreases |es|
  {
    if es != [] {
      var tail := es[1..];
      SortEntriesCorrect(tail);
      var rest := SortEntries(tail);
      InsertDescending(es[0], rest);
      forall k
        ensures WithKey(SortEntries(es), k) == WithKey(es, k)
      {
        InsertStable(es[0], rest, k);
        assert ([es[0]] + rest)[1..] == rest;
      }
    }
  }

  lemma {:induction false} UndecoratePermutation(x: SortEntry, t: seq<SortEntry>)
    ensures multiset(Undecorate(Insert(x, t))) == multiset([x.event] + Undecorate(t))
    decreases |t|
  {
    if t != [] && !NotBelow(x, t[0]) {
      UndecoratePermutation(x, t[1..]);
      assert Undecorate(t) == [t[0].event] + Undecorate(t[1..]);
    }
  }

  lemma {:induction false} SortEntriesEvents(es: seq<SortEntry>)
    ensures multiset(Undecorate(SortEntries(es))) == multiset(Undecorate(es))
    decreases |es|
  {
    if es != [] {
      SortEntriesEvents(es[1..]);
      UndecoratePermutation(es[0], SortEntries(es[1..]));
    }
  }

  /** The events of `s` whose key is `k`, in their order. */
  function EventsWithKey(s: seq<LaneEvent>, k: string): seq<LaneEvent>
    decreases |s|
  {
    if s == [] then [] else (if Key(s[0]) == k then [s[0]] else []) + EventsWithKey(s[1..], k)
  }

  lemma UndecorateAppend(a: seq<SortEntry>, b: seq<SortEntry>)
    ensures Undecorate(a + b) == Undecorate(a) + Undecorate(b)
  {
  }

  lemma {:induction false} WithKeyUndecorate(es: seq<SortEntry>, k: string)
    requires KeysFaithful(es)
    ensures EventsWithKey(Undecorate(es), k) == Undecorate(WithKey(es, k))
    decreases |es|
  {
    if es != [] {
      var x, rest := es[0], es[1..];
      assert x in es;
      assert KeysFaithful(rest) by {
        forall y | y in rest ensures y in es { }
      }
      WithKeyUndecorate(rest, k);
      var u := Undecorate(es);
      assert u[0] == x.event && u[1..] == Undecorate(rest);
      var h := if x.key == k then [x] else [];
      assert WithKey(es, k) == h + WithKey(rest, k);
      UndecorateAppend(h, WithKey(rest, k));
    }
  }

  /** `sorted(lane_events, key=lambda e: e[0].split("_")[1], reverse=True)`. */
  function SortDescending(s: seq<LaneEvent>): (r: seq<LaneEvent>)
    ensures multiset(r) == multiset(s)
  {
    SortEntriesEvents(Decorate(s));
    assert Undecorate(Decorate(s)) == s;
    Undecorate(SortEntries(Decorate(s)))
  }

  /** The events are in descending key order (later ones never have a larger key). */
  predicate Descending(s: seq<LaneEvent>)
  {
    forall i, j :: 0 <= i < j < |s| ==> !Less(Key(s[i]), Key(s[j]))
  }

  /** The decorated entries, once sorted, still carry their own events' keys. */
  lemma SortedKeysFaithful(s: seq<LaneEvent>)
    ensures KeysFaithful(SortEntries(Decorate(s)))
  {
    var ds := Decorate(s);
    var sorted := SortEntries(ds);
    forall x | x in sorted ensures x.key == Key(x.event) {
      assert x in multiset(ds);
      var i :| 0 <= i < |ds| && ds[i] == x;
    }
  }

  /** The sorted events are in descending key order. */
  lemma SortDescendingOrdered(s: seq<LaneEvent>)
    ensures Descending(SortDescending(s))
  {
    var sorted := SortEntries(Decorate(s));
    SortEntriesCorrect(Decorate(s));
    SortedKeysFaithful(s);
    var r := Undecorate(sorted);
    forall i, j | 0 <= i < j < |r| ensures !Less(Key(r[i]), Key(r[j])) {
      assert sorted[i] in sorted && sorted[j] in sorted;
      assert NotBelow(sorted[i], sorted[j]);
    }
  }

  /** The events with any one key keep their input order. */
  lemma SortDescendingStable(s: seq<LaneEvent>, k: string)
    ensures EventsWithKey(SortDescending(s), k) == EventsWithKey(s, k)
  {
    var ds := Decorate(s);
    var sorted := SortEntries(ds);
    SortEntriesCorrect(ds);
    SortedKeysFaithful(s);
    WithKeyUndecorate(sorted, k);
    WithKeyUndecorate(ds, k);
    assert Undecorate(ds) == s;
  }

  /**
   * The sort is a stable descending sort: its result is in descending key
   * order, and the events with any one key keep their input order.
   */
  lemma SortDescendingCorrect(s: seq<LaneEvent>)
    ensures Descending(SortDescending(s))
    ensures forall k :: EventsWithKey(SortDescending(s), k) == EventsWithKey(s, k)
  {
    SortDescendingOrdered(s);
    forall k ensures EventsWithKey(SortDescending(s), k) == EventsWithKey(s, k) {
      SortDescendingStable(s, k);
    }
  }

  /** The lane events of one lane type, in the order they were appended. */
  datatype Group = Group(laneType: LaneType, events: seq<LaneEvent>)

  /** The lane types of the groups, in dictionary (insertion) order. */
  function Types(gs: seq<Group>): (r: seq<LaneType>)
    ensures |r| == |gs|
    ensures forall g :: 0 <= g < |gs| ==> r[g] == gs[g].laneType
    decreases |gs|
  {
    if gs == [] then [] else [gs[0].laneType] + Types(gs[1..])
  }

  /** `lane_event_by_lane_type.setdefault(t, []).append(e)` on the insertion-ordered dictionary. */
  function AddToGroups(gs: seq<Group>, t: LaneType, e: LaneEvent): (r: seq<Group>)
    ensures |gs| <= |r| <= |gs| + 1
    decreases |gs|
  {
    if gs == [] then [Group(t, [e])]
    else if gs[0].laneType == t then [gs[0].(events := gs[0].events + [e])] + gs[1..]
    else [gs[0]] + AddToGroups(gs[1..], t, e)
  }

  /** `setdefault` adds `t` as the last key when it is new, and otherwise keeps the keys. */
  lemma {:induction false} AddToGroupsTypes(gs: seq<Group>, t: LaneType, e: LaneEvent)
    ensures Types(AddToGroups(gs, t, e)) == if t in Types(gs) then Types(gs) else Types(gs) + [t]
    decreases |gs|
  {
    if gs != [] {
      var r := AddToGroups(gs, t, e);
      assert Types(gs) == [gs[0].laneType] + Types(gs[1..]);
      assert r[1..] == if gs[0].laneType == t then gs[1..] else AddToGroups(gs[1..], t, e);
      assert Types(r) == [r[0].laneType] + Types(r[1..]);
      if gs[0].laneType != t {
        AddToGroupsTypes(gs[1..], t, e);
      }
    }
  }

  /** Every grouped event has a lane in `props`. */
  predicate EventsKnown(gs: seq<Group>, props: map<string, LaneProperties>)
  {
    forall g, x :: 0 <= g < |gs| && x in gs[g].events ==> x.laneId in props
  }

  /**
   * What `append` does to an existing list: it extends the list of type `t`
   * and no other (group `g` is the first of its type).
   */
  lemma {:induction false} AddToGroupsAt(gs: seq<Group>, t: LaneType, e: LaneEvent, g: nat)
    requires g < |gs|
    requires forall i :: 0 <= i < g ==> gs[i].laneType != gs[g].laneType
    ensures AddToGroups(gs, t, e)[g].events == if gs[g].laneType == t then gs[g].events + [e] else gs[g].events
    decreases |gs|
  {
    var r := AddToGroups(gs, t, e);
    if gs[0].laneType == t {
      if g > 0 {
        assert r[g] == gs[g];
      }
    } else if g > 0 {
      var tail := gs[1..];
      AddToGroupsAt(tail, t, e, g - 1);
      assert r[g] == AddToGroups(tail, t, e)[g - 1];
    }
  }

  /** A new lane type gets the list `[e]`, after all existing ones. */
  lemma {:induction false} AddToGroupsNew(gs: seq<Group>, t: LaneType, e: LaneEvent)
    requires t !in Types(gs)
    ensures |AddToGroups(gs, t, e)| == |gs| + 1 && AddToGroups(gs, t, e)[|gs|] == Group(t, [e])
    decreases |gs|
  {
    if gs != [] {
      assert Types(gs) == [gs[0].laneType] + Types(gs[1..]);
      AddToGroupsNew(gs[1..], t, e);
      assert AddToGroups(gs, t, e)[|gs|] == AddToGroups(gs[1..], t, e)[|gs| - 1];
    }
  }

  lemma {:induction false} AddToGroupsKnown(gs: seq<Group>, t: LaneType, e: LaneEvent, props: map<string, LaneProperties>)
    requires EventsKnown(gs, props) && e.laneId in props
    ensures EventsKnown(AddToGroups(gs, t, e), props)
    decreases |gs|
  {
    if gs != [] && gs[0].laneType != t {
      AddToGroupsKnown(gs[1..], t, e, props);
      var r := AddToGroups(gs, t, e);
      forall g, x | 0 <= g < |r| && x in r[g].events
        ensures x.laneId in props
      {
        if g > 0 {
          assert r[g] == AddToGroups(gs[1..], t, e)[g - 1];
        }
      }
    }
  }

  /** The groups built by the loop over the sorted events. */
  function Grouped(s: seq<LaneEvent>, props: map<string, LaneProperties>): (r: seq<Group>)
    ensures EventsKnown(r, props)
    decreases |s|
  {
    if s == [] then []
    else
      var gs := Grouped(s[..|s| - 1], props);
      var e := s[|s| - 1];
      if e.laneId in props then
        AddToGroupsKnown(gs, props[e.laneId].laneType, e, props);
        AddToGroups(gs, props[e.laneId].laneType, e)
      else gs
  }

  /** The events whose lane is in `props`, in their order. */
  function Kept(s: seq<LaneEvent>, props: map<string, LaneProperties>): seq<LaneEvent>
    decreases |s|
  {
    if s == [] then []
    else Kept(s[..|s| - 1], props) + (if s[|s| - 1].laneId in props then [s[|s| - 1]] else [])
  }

  /** The lane types of the kept events, in their order. */
  function KeptTypes(s: seq<LaneEvent>, props: map<string, LaneProperties>): seq<LaneType>
    decreases |s|
  {
    if s == [] then []
    else
      var e := s[|s| - 1];
      KeptTypes(s[..|s| - 1], props) + (if e.laneId in props then [props[e.laneId].laneType] else [])
  }

  /** The kept events of lane type `t`, in their order. */
  function OfType(s: seq<LaneEvent>, props: map<string, LaneProperties>, t: LaneType): seq<LaneEvent>
    decreases |s|
  {
    if s == [] then []
    else
      var e := s[|s| - 1];
      OfType(s[..|s| - 1], props, t) + (if e.laneId in props && props[e.laneId].laneType == t then [e] else [])
  }

  /** The distinct elements of `ts` in order of first occurrence. */
  function FirstSeen(ts: seq<LaneType>): seq<LaneType>
    decreases |ts|
  {
    if ts == [] then []
    else
      var d := FirstSeen(ts[..|ts| - 1]);
      if ts[|ts| - 1] in d then d else d + [ts[|ts| - 1]]
  }

  lemma {:induction false} FirstSeenMembers(ts: seq<LaneType>)
    ensures NoDuplicates(FirstSeen(ts))
    ensures forall t :: t in FirstSeen(ts) <==> t in ts
    decreases |ts|
  {
    if ts != [] {
      var init := ts[..|ts| - 1];
      FirstSeenMembers(init);
      assert ts == init + [ts[|ts| - 1]];
    }
  }

  lemma {:induction false} OfTypeMembers(s: seq<LaneEvent>, props: map<string, LaneProperties>, t: LaneType)
    ensures forall e :: e in OfType(s, props, t) <==> e in s && e.laneId in props && props[e.laneId].laneType == t
    ensures t !in KeptTypes(s, props) ==> OfType(s, props, t) == []
    decreases |s|
  {
    if s != [] {
      var init := s[..|s| - 1];
      OfTypeMembers(init, props, t);
      assert s == init + [s[|s| - 1]];
    }
  }

  /** The kept events of `s` extended by one more event. */
  lemma KeptTypesSnoc(s: seq<LaneEvent>, props: map<string, LaneProperties>)
    requires s != []
    ensures KeptTypes(s, props) == KeptTypes(s[..|s| - 1], props)
              + (if s[|s| - 1].laneId in props then [props[s[|s| - 1].laneId].laneType] else [])
  {
  }

  /** The first-seen order of a list extended by one more type. */
  lemma FirstSeenSnoc(ts: seq<LaneType>, t: LaneType)
    ensures FirstSeen(ts + [t]) == if t in FirstSeen(ts) then FirstSeen(ts) else FirstSeen(ts) + [t]
  {
    assert (ts + [t])[..|ts|] == ts;
  }

  /** Groups appear in the order their lane type first occurs among the kept events. */
  lemma {:induction false} GroupedTypes(s: seq<LaneEvent>, props: map<string, LaneProperties>)
    ensures Types(Grouped(s, props)) == FirstSeen(KeptTypes(s, props))
    decreases |s|
  {
    if s != [] {
      var init, e := s[..|s| - 1], s[|s| - 1];
      GroupedTypes(init, props);
      KeptTypesSnoc(s, props);
      if e.laneId in props {
        AddToGroupsTypes(Grouped(init, props), props[e.laneId].laneType, e);
        FirstSeenSnoc(KeptTypes(init, props), props[e.laneId].laneType);
      } else {
        assert KeptTypes(s, props) == KeptTypes(init, props);
      }
    }
  }

  /**
   * Appending a kept event `e` to groups that hold exactly the kept events of
   * their types (in first-seen order) keeps every group equal to the kept
   * events of its type.
   */
  lemma AddToGroupsEvents(gs: seq<Group>, init: seq<LaneEvent>, e: LaneEvent, props: map<string, LaneProperties>, g: nat)
    requires e.laneId in props
    requires Types(gs) == FirstSeen(KeptTypes(init, props))
    requires forall h :: 0 <= h < |gs| ==> gs[h].events == OfType(init, props, gs[h].laneType)
    requires g < |AddToGroups(gs, props[e.laneId].laneType, e)|
    ensures var r := AddToGroups(gs, props[e.laneId].laneType, e);
            r[g].events == OfType(init + [e], props, r[g].laneType)
  {
    var t := props[e.laneId].laneType;
    var r := AddToGroups(gs, t, e);
    AddToGroupsTypes(gs, t, e);
    FirstSeenMembers(KeptTypes(init, props));
    assert (init + [e])[..|init|] == init;
    if g == |gs| {
      assert t !in Types(gs);
      AddToGroupsNew(gs, t, e);
      OfTypeMembers(init, props, t);
    } else {
      assert Types(r)[g] == Types(gs)[g];
      forall i | 0 <= i < g ensures gs[i].laneType != gs[g].laneType {
        assert Types(gs)[i] != Types(gs)[g];
      }
      AddToGroupsAt(gs, t, e, g);
    }
  }

  /** One grouping step keeps every group equal to the kept events of its type. */
  lemma GroupedEventsStep(s: seq<LaneEvent>, init: seq<LaneEvent>, props: map<string, LaneProperties>)
    requires s != [] && init == s[..|s| - 1] && s[|s| - 1].laneId in props
    requires forall h :: 0 <= h < |Grouped(init, props)| ==>
               Grouped(init, props)[h].events == OfType(init, props, Grouped(init, props)[h].laneType)
    ensures forall g :: 0 <= g < |Grouped(s, props)| ==>
              Grouped(s, props)[g].events == OfType(s, props, Grouped(s, props)[g].laneType)
  {
    var e := s[|s| - 1];
    var gs := Grouped(init, props);
    var r := AddToGroups(gs, props[e.laneId].laneType, e);
    assert Grouped(s, props) == r;
    assert s == init + [e];
    GroupedTypes(init, props);
    forall g | 0 <= g < |r|
      ensures r[g].events == OfType(s, props, r[g].laneType)
    {
      AddToGroupsEvents(gs, init, e, props, g);
    }
  }

  /** Each group holds exactly the kept events of its type, in their order. */
  lemma {:induction false} GroupedEvents(s: seq<LaneEvent>, props: map<string, LaneProperties>)
    ensures forall g :: 0 <= g < |Grouped(s, props)| ==>
              Grouped(s, props)[g].events == OfType(s, props, Grouped(s, props)[g].laneType)
    decreases |s|
  {
    if s != [] {
      var init := s[..|s| - 1];
      GroupedEvents(init, props);
      if s[|s| - 1].laneId in props {
        GroupedEventsStep(s, init, props);
      }
    }
  }

  /**
   * The grouping: groups appear in the order their lane type first occurs
   * among the kept events, and each group holds exactly the kept events of
   * its type, in their order.
   */
  lemma GroupedSpec(s: seq<LaneEvent>, props: map<string, LaneProperties>)
    ensures Types(Grouped(s, props)) == FirstSeen(KeptTypes(s, props))
    ensures forall g :: 0 <= g < |Grouped(s, props)| ==>
              Grouped(s, props)[g].events == OfType(s, props, Grouped(s, props)[g].laneType)
  {
    GroupedTypes(s, props);
    GroupedEvents(s, props);
  }

  /** Every kept event lies in the group of its lane's type. */
  lemma GroupsCoverKept(s: seq<LaneEvent>, props: map<string, LaneProperties>, e: LaneEvent)
    requires e in s && e.laneId in props
    ensures exists g :: 0 <= g < |Grouped(s, props)| && Grouped(s, props)[g].laneType == props[e.laneId].laneType
              && e in Grouped(s, props)[g].events
  {
    var gs := Grouped(s, props);
    var t := props[e.laneId].laneType;
    GroupedTypes(s, props);
    GroupedEvents(s, props);
    FirstSeenMembers(KeptTypes(s, props));
    OfTypeMembers(s, props, t);
    KeptTypesMembers(s, props);
    assert t in Types(gs);
    var g :| 0 <= g < |gs| && Types(gs)[g] == t;
    assert e in OfType(s, props, t);
  }

  /** A group holds only kept events of its own type. */
  lemma GroupsHoldOwnType(s: seq<LaneEvent>, props: map<string, LaneProperties>, g: nat, e: LaneEvent)
    requires g < |Grouped(s, props)| && e in Grouped(s, props)[g].events
    ensures e in s && e.laneId in props && props[e.laneId].laneType == Grouped(s, props)[g].laneType
  {
    GroupedEvents(s, props);
    OfTypeMembers(s, props, Grouped(s, props)[g].laneType);
  }

  /**
   * The groups partition the kept events: the group types are distinct, every
   * kept event lies in the group of its lane's type, and a group holds only
   * kept events of its own type.
   */
  lemma GroupsPartition(s: seq<LaneEvent>, props: map<string, LaneProperties>)
    ensures NoDuplicates(Types(Grouped(s, props)))
    ensures forall e :: e in s && e.laneId in props ==>
              exists g :: 0 <= g < |Grouped(s, props)| && Grouped(s, props)[g].laneType == props[e.laneId].laneType
                && e in Grouped(s, props)[g].events
    ensures forall g, e :: 0 <= g < |Grouped(s, props)| && e in Grouped(s, props)[g].events ==>
              e in s && e.laneId in props && props[e.laneId].laneType == Grouped(s, props)[g].laneType
  {
    GroupedTypes(s, props);
    FirstSeenMembers(KeptTypes(s, props));
    forall e | e in s && e.laneId in props
      ensures exists g :: 0 <= g < |Grouped(s, props)| && Grouped(s, props)[g].laneType == props[e.laneId].laneType
                && e in Grouped(s, props)[g].events
    {
      GroupsCoverKept(s, props, e);
    }
    forall g, e | 0 <= g < |Grouped(s, props)| && e in Grouped(s, props)[g].events
      ensures e in s && e.laneId in props && props[e.laneId].laneType == Grouped(s, props)[g].laneType
    {
      GroupsHoldOwnType(s, props, g, e);
    }
  }

  lemma {:induction false} KeptTypesMembers(s: seq<LaneEvent>, props: map<string, LaneProperties>)
    ensures forall e :: e in s && e.laneId in props ==> props[e.laneId].laneType in KeptTypes(s, props)
    decreases |s|
  {
    if s != [] {
      var init := s[..|s| - 1];
      KeptTypesMembers(init, props);
      assert s == init + [s[|s| - 1]];
    }
  }

  /** The number of grouped events. */
  function TotalEvents(gs: seq<Group>): nat
    decreases |gs|
  {
    if gs == [] then 0 else |gs[0].events| + TotalEvents(gs[1..])
  }

  lemma {:induction false} AddToGroupsCount(gs: seq<Group>, t: LaneType, e: LaneEvent)
    ensures TotalEvents(AddToGroups(gs, t, e)) == TotalEvents(gs) + 1
    decreases |gs|
  {
    if gs != [] {
      if gs[0].laneType != t {
        AddToGroupsCount(gs[1..], t, e);
      } else {
        assert AddToGroups(gs, t, e)[1..] == gs[1..];
      }
    }
  }

  /** No event is lost or duplicated: the groups hold as many events as were kept. */
  lemma {:induction false} GroupedCount(s: seq<LaneEvent>, props: map<string, LaneProperties>)
    ensures TotalEvents(Grouped(s, props)) == |Kept(s, props)|
    decreases |s|
  {
    if s != [] {
      var init, e := s[..|s| - 1], s[|s| - 1];
      GroupedCount(init, props);
      if e.laneId in props {
        AddToGroupsCount(Grouped(init, props), props[e.laneId].laneType, e);
      }
    }
  }

  /** At most every event is kept, and all of them exactly when every lane is known. */
  lemma {:induction false} KeptCount(s: seq<LaneEvent>, props: map<string, LaneProperties>)
    ensures |Kept(s, props)| <= |s|
    ensures |Kept(s, props)| == |s| <==> forall e :: e in s ==> e.laneId in props
    decreases |s|
  {
    if s != [] {
      var init, e := s[..|s| - 1], s[|s| - 1];
      KeptCount(init, props);
      assert s == init + [e];
    }
  }

  /**
   * The groups of `events`, built by the loop that fills
   * `lane_event_by_lane_type`: unknown lanes are skipped.
   */
  method GroupByType(events: seq<LaneEvent>, props: map<string, LaneProperties>) returns (groups: seq<Group>)
    ensures groups == Grouped(events, props)
  {
    groups := [];
    for i := 0 to |events|
      invariant groups == Grouped(events[..i], props)
    {
      var e := events[i];
      assert events[..i + 1][..i] == events[..i];
      var lane := if e.laneId in props then Some(props[e.laneId]) else None;
      if lane.None? {
        continue;
      }
      groups := AddToGroups(groups, lane.value.laneType, e);
    }
    assert events[..|events|] == events;
  }

  /** `time_left` values outside [0, 200] are placeholders, shown as -1. */
  function NormalizeTimeLeft(t: int): (r: int)
    ensures 0 <= t <= 200 ==> r == t
    ensures !(0 <= t <= 200) ==> r == -1
  {
    if t > 200 || t < 0 then -1 else t
  }

  /** The direction column: "N/A" for a crosswalk, the `, `-joined direction values otherwise. */
  function DirectionText(p: LaneProperties): string
  {
    if p.laneType == Crosswalk then "N/A" else Join(DirectionValues(p.directions), ", ")
  }

  function DirectionValues(ds: seq<LaneDirection>): (r: seq<string>)
    ensures |r| == |ds|
    ensures forall i :: 0 <= i < |ds| ==> r[i] == DirectionValue(ds[i])
  {
    seq(|ds|, i requires 0 <= i < |ds| => DirectionValue(ds[i]))
  }

  /** The direction whose value starts `s`, if any. */
  function LeadingDirection(s: string): Option<LaneDirection>
  {
    if "LEFT" <= s then Some(Left)
    else if "RIGHT" <= s then Some(Right)
    else if "STRAIGHT" <= s then Some(Straight)
    else None
  }

  /** Reads a non-empty `, `-separated list of direction values back. */
  function ParseDirectionList(s: string): Option<seq<LaneDirection>>
    decreases |s|
  {
    match LeadingDirection(s)
    case None => None
    case Some(d) =>
      var rest := s[|DirectionValue(d)|..];
      if rest == [] then Some([d])
      else if ", " <= rest then
        match ParseDirectionList(rest[2..])
        case None => None
        case Some(ds) => Some([d] + ds)
      else None
  }

  lemma LeadingDirectionOf(d: LaneDirection, tail: string)
    ensures LeadingDirection(DirectionValue(d) + tail) == Some(d)
  {
    var s := DirectionValue(d) + tail;
    assert s[0] == DirectionValue(d)[0];
    assert s[..|DirectionValue(d)|] == DirectionValue(d);
  }

  /** A single direction value reads back as that direction. */
  lemma ParseSingle(d: LaneDirection)
    ensures ParseDirectionList(DirectionValue(d)) == Some([d])
  {
    LeadingDirectionOf(d, []);
    assert DirectionValue(d) + [] == DirectionValue(d);
    assert DirectionValue(d)[|DirectionValue(d)|..] == [];
  }

  /** A direction value followed by `, ` and more reads back as that direction before the rest. */
  lemma ParseCons(d: LaneDirection, tail: string)
    ensures ParseDirectionList(DirectionValue(d) + (", " + tail))
            == match ParseDirectionList(tail)
               case None => None
               case Some(ds) => Some([d] + ds)
  {
    var s := DirectionValue(d) + (", " + tail);
    LeadingDirectionOf(d, ", " + tail);
    assert s[|DirectionValue(d)|..] == ", " + tail;
    assert (", " + tail)[2..] == tail;
  }

  /** The column text of a single direction is its value. */
  lemma JoinValuesSingle(ds: seq<LaneDirection>)
    requires |ds| == 1
    ensures Join(DirectionValues(ds), ", ") == DirectionValue(ds[0])
  {
  }

  /** The column text of several directions: the first value, `, `, then the rest. */
  lemma JoinValuesCons(ds: seq<LaneDirection>)
    requires |ds| > 1
    ensures Join(DirectionValues(ds), ", ") == DirectionValue(ds[0]) + (", " + Join(DirectionValues(ds[1..]), ", "))
  {
    assert DirectionValues(ds)[1..] == DirectionValues(ds[1..]);
  }

  /** The joined direction values can be read back, so the column determines the directions. */
  lemma {:induction false} DirectionListRoundTrip(ds: seq<LaneDirection>)
    requires ds != []
    ensures ParseDirectionList(Join(DirectionValues(ds), ", ")) == Some(ds)
    decreases |ds|
  {
    if |ds| == 1 {
      JoinValuesSingle(ds);
      ParseSingle(ds[0]);
      assert [ds[0]] == ds;
    } else {
      JoinValuesCons(ds);
      DirectionListRoundTrip(ds[1..]);
      ParseCons(ds[0], Join(DirectionValues(ds[1..]), ", "));
      assert [ds[0]] + ds[1..] == ds;
    }
  }

  /**
   * The direction column is "N/A" exactly for crosswalks, and for every
   * other lane type it spells out the lane's directions in order.
   */
  lemma DirectionTextMeaning(p: LaneProperties)
    ensures DirectionText(p) == "N/A" <==> p.laneType == Crosswalk
    ensures p.laneType != Crosswalk && p.directions != [] ==> ParseDirectionList(DirectionText(p)) == Some(p.directions)
    ensures p.laneType != Crosswalk && p.directions == [] ==> DirectionText(p) == ""
  {
    if p.laneType != Crosswalk && p.directions != [] {
      DirectionListRoundTrip(p.directions);
      assert ParseDirectionList("N/A") == None;
    }
  }

  /** One printed row: time left, lane type, signal state, directions, lane id. */
  datatype Row = Row(timeLeft: int, laneType: LaneType, signalState: string, directions: string, laneId: string)

  /** One `--- TYPE ---` header with the rows beneath it. */
  datatype Section = Section(header: LaneType, rows: seq<Row>)

  /**
   * The row of one event: its lane id and signal state as received, the time
   * left kept in [0, 200] and -1 otherwise, the lane's type, and its
   * direction text, which is "N/A" exactly for a crosswalk.
   */
  function RenderRow(e: LaneEvent, p: LaneProperties): (r: Row)
    ensures r.laneId == e.laneId && r.signalState == e.signalState && r.laneType == p.laneType
    ensures 0 <= e.timeLeft <= 200 ==> r.timeLeft == e.timeLeft
    ensures !(0 <= e.timeLeft <= 200) ==> r.timeLeft == -1
    ensures r.directions == "N/A" <==> p.laneType == Crosswalk
  {
    DirectionTextMeaning(p);
    Row(NormalizeTimeLeft(e.timeLeft), p.laneType, e.signalState, DirectionText(p), e.laneId)
  }

  function RenderGroup(g: Group, props: map<string, LaneProperties>): Section
    requires forall x :: x in g.events ==> x.laneId in props
  {
    Section(g.laneType, seq(|g.events|, i requires 0 <= i < |g.events| => RenderRow(g.events[i], props[g.events[i].laneId])))
  }

  function SectionsOf(gs: seq<Group>, props: map<string, LaneProperties>): seq<Section>
    requires EventsKnown(gs, props)
  {
    seq(|gs|, g requires 0 <= g < |gs| => RenderGroup(gs[g], props))
  }

  /** The number of printed rows. */
  function TotalRows(sections: seq<Section>): nat
    decreases |sections|
  {
    if sections == [] then 0 else |sections[0].rows| + TotalRows(sections[1..])
  }

  lemma {:induction false} SectionsOfCount(gs: seq<Group>, props: map<string, LaneProperties>)
    requires EventsKnown(gs, props)
    ensures TotalRows(SectionsOf(gs, props)) == TotalEvents(gs)
    decreases |gs|
  {
    if gs != [] {
      assert EventsKnown(gs[1..], props) by {
        forall g, x | 0 <= g < |gs[1..]| && x in gs[1..][g].events
          ensures x.laneId in props
        {
          assert gs[1..][g] == gs[g + 1];
        }
      }
      SectionsOfCount(gs[1..], props);
      assert SectionsOf(gs, props)[1..] == SectionsOf(gs[1..], props);
    }
  }

  /** The nested output loops: a header per group, a row per event. */
  method RenderGroups(groups: seq<Group>, props: map<string, LaneProperties>) returns (sections: seq<Section>)
    requires EventsKnown(groups, props)
    ensures sections == SectionsOf(groups, props)
  {
    sections := [];
    for g := 0 to |groups|
      invariant |sections| == g
      invariant forall k :: 0 <= k < g ==> sections[k] == RenderGroup(groups[k], props)
    {
      var group := groups[g];
      var rows: seq<Row> := [];
      for i := 0 to |group.events|
        invariant |rows| == i
        invariant forall k :: 0 <= k < i ==> rows[k] == RenderRow(group.events[k], props[group.events[k].laneId])
      {
        var e := group.events[i];
        var p := props[e.laneId];
        var timeLeft := e.timeLeft;
        if timeLeft > 200 || timeLeft < 0 {
          timeLeft := -1;
        }
        var directions;
        if p.laneType == Crosswalk {
          directions := "N/A";
        } else {
          directions := Join(DirectionValues(p.directions), ", ");
        }
        rows := rows + [Row(timeLeft, p.laneType, e.signalState, directions, e.laneId)];
      }
      sections := sections + [Section(group.laneType, rows)];
    }
  }

  /** Why a callback invocation raised. */
  datatype RenderError =
    | LoadFailed(error: LoadError)   // `get_lane_properties` raised
    | NoSortKey(laneId: string)      // the sort key of this lane id raised IndexError

  /**
   * What one callback invocation prints, given the loaded lane properties.
   * It raises exactly when some lane id has no `_`, naming the first such id
   * in batch order.
   */
  function Render(props: map<string, LaneProperties>, batch: Batch): (r: Result<seq<Section>, RenderError>)
    ensures r.Failure? <==> exists e :: e in batch && '_' !in e.laneId
    ensures r.Failure? ==>
              && r.error.NoSortKey?
              && '_' !in r.error.laneId
              && exists i :: 0 <= i < |batch| && batch[i].laneId == r.error.laneId && AllKeyed(batch[..i])
  {
    if !AllKeyed(batch) then Failure(NoSortKey(FirstUnkeyed(batch)))
    else Success(SectionsOf(Grouped(SortDescending(batch), props), props))
  }

  /**
   * Unknown lanes are dropped: a rendering never has more rows than the batch
   * has events, and has as many exactly when every lane is known.
   */
  lemma RenderRowCount(props: map<string, LaneProperties>, batch: Batch)
    requires Render(props, batch).Success?
    ensures TotalRows(Render(props, batch).value) <= |batch|
    ensures TotalRows(Render(props, batch).value) == |batch| <==> forall e :: e in batch ==> e.laneId in props
  {
    var sorted := SortDescending(batch);
    SectionsOfCount(Grouped(sorted, props), props);
    GroupedCount(sorted, props);
    KeptCount(sorted, props);
    assert |sorted| == |multiset(sorted)| == |multiset(batch)| == |batch|;
    forall e ensures e in sorted <==> e in batch {
      assert e in sorted <==> e in multiset(sorted);
    }
  }

  /**
   * `console_cb(lane_group_id, lane_events)` with the static features it
   * loads passed in: a load failure or a missing sort key raises, otherwise
   * the result is the rendering of the batch under some load of the index
   * (the loaded lanes' direction order is not fixed).
   */
  method ConsoleCallback(laneGroupId: string, features: seq<LaneFeature>, batch: Batch)
    returns (r: Result<seq<Section>, RenderError>)
    ensures r.Failure? <==> ConsoleRaises(laneGroupId, features, batch)
    ensures LaneIndex(features, laneGroupId).Failure? ==> r == Failure(LoadFailed(LaneIndex(features, laneGroupId).error))
    ensures LaneIndex(features, laneGroupId).Success? ==>
              exists props :: Summaries(props) == LaneIndex(features, laneGroupId).value && WellFormed(props)
                && r == Render(props, batch)
  {
    var loaded := GetLaneProperties(features, laneGroupId);
    if loaded.Failure? {
      return Failure(LoadFailed(loaded.error));
    }
    var props := loaded.value;
    if !AllKeyed(batch) {
      return Failure(NoSortKey(FirstUnkeyed(batch)));
    }
    var sorted := SortDescending(batch);
    var groups := GroupByType(sorted, props);
    var sections := RenderGroups(groups, props);
    r := Success(sections);
    assert Summaries(props) == LaneIndex(features, laneGroupId).value && WellFormed(props) && r == Render(props, batch);
  }

  /**
   * Whether `console_cb` raises on a batch, given the features it loads: the
   * load fails, or some lane id of the batch has no sort key.
   */
  predicate ConsoleRaises(laneGroupId: string, features: seq<LaneFeature>, batch: Batch)
  {
    LaneIndex(features, laneGroupId).Failure? || !AllKeyed(batch)
  }

  /**
   * `live-status` with `console_cb` as the callback and no budget: a batch
   * with a lane id without `_` makes the callback raise, which ends the
   * stream loop, so a later batch is never rendered.
   */
  lemma ConsoleLoopEndsOnUnkeyedLane(laneGroupId: string, features: seq<LaneFeature>, b1: Batch, b2: Batch)
    requires exists e :: e in b1 && '_' !in e.laneId
    ensures Run([SseEvent(SignalStateEvent, [b1]), SseEvent(SignalStateEvent, [b2])], None,
                iset b | ConsoleRaises(laneGroupId, features, b))
            == RunResult([b1], None, CallbackFailed)
  {
  }
}
