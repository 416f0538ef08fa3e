/**
 * The one-to-many name index of the matching passes (`EntityIndex`) and the
 * generic "look up, pop, match or report" pass that match_symbols,
 * match_vtables and match_variables all run over it.
 */
module MatchIndex {
  import opened Wrappers

  /** key -> addresses in the order they were added. */
  type Index = map<string, seq<int>>

  /** Every key present still has a value: `pop` deletes a key whose list empties. */
  ghost predicate NonEmptyLists(m: Index)
  {
    forall k :: k in m ==> |m[k]| > 0
  }

  /** `add`: append the value to the key's list, creating it if needed. */
  function IndexAdd(m: Index, k: string, v: int): (r: Index)
    ensures r.Keys == m.Keys + {k}
    ensures r[k] == (if k in m then m[k] else []) + [v]
    ensures forall x :: x in m && x != k ==> r[x] == m[x]
  {
    m[k := (if k in m then m[k] else []) + [v]]
  }

  /** `pop`: take the earliest value of the key and drop the key once its list is empty. */
  function IndexPop(m: Index, k: string): (r: (Index, int))
    requires k in m && |m[k]| > 0
    ensures r.1 == m[k][0]
    ensures k in r.0 <==> |m[k]| > 1
    ensures k in r.0 ==> r.0[k] == m[k][1..]
    ensures forall x :: x != k ==> (x in r.0 <==> x in m) && (x in m ==> r.0[x] == m[x])
  {
    if |m[k]| == 1 then (m - {k}, m[k][0]) else (m[k := m[k][1..]], m[k][0])
  }

  /** The index after adding the entries in order. */
  function Built(entries: seq<(string, int)>): (m: Index)
    ensures NonEmptyLists(m)
  {
    if entries == [] then map[]
    else
      var last := entries[|entries| - 1];
      IndexAdd(Built(entries[..|entries| - 1]), last.0, last.1)
  }

  /** The values added under `k`, in order. */
  function ValuesFor(entries: seq<(string, int)>, k: string): (r: seq<int>)
    ensures forall v :: v in r ==> (k, v) in entries
  {
    if entries == [] then []
    else
      var last := entries[|entries| - 1];
      ValuesFor(entries[..|entries| - 1], k) + (if last.0 == k then [last.1] else [])
  }

  /** FIFO: a built index holds, under each key, exactly the values added for it, in order. */
  lemma {:induction false} BuiltIsFilter(entries: seq<(string, int)>, k: string)
    ensures k in Built(entries) <==> ValuesFor(entries, k) != []
    ensures k in Built(entries) ==> Built(entries)[k] == ValuesFor(entries, k)
  {
    if entries != [] {
      BuiltIsFilter(entries[..|entries| - 1], k);
    }
  }

  class EntityIndex {
    var entries: Index

    ghost predicate Valid()
      reads this
    {
      NonEmptyLists(entries)
    }

    constructor()
      ensures Valid() && entries == map[]
    {
      entries := map[];
    }

    /** `key in index`: the key still has values. */
    predicate Contains(key: string)
      reads this
    {
      key in entries
    }

    method Add(key: string, value: int)
      requires Valid()
      modifies this
      ensures Valid() && entries == IndexAdd(old(entries), key, value)
    {
      var list := if key in entries then entries[key] else [];
      entries := entries[key := list + [value]];
    }

    /** `get`: the values of the key, or none. */
    function Get(key: string): (r: seq<int>)
      reads this
      ensures key in entries ==> r == entries[key]
      ensures key !in entries ==> r == []
    {
      if key in entries then entries[key] else []
    }

    /** `count`: how many values the key has; positive exactly when the key is present. */
    function Count(key: string): (n: nat)
      reads this
      ensures n == |Get(key)|
      ensures Valid() ==> (n > 0 <==> Contains(key))
    {
      |Get(key)|
    }

    method Pop(key: string) returns (value: int)
      requires Valid() && Contains(key)
      modifies this
      ensures Valid() && (entries, value) == IndexPop(old(entries), key)
    {
      var list := entries[key];
      value := list[0];
      if |list| == 1 {
        entries := entries - {key};
      } else {
        entries := entries[key := list[1..]];
      }
    }
  }

  // ---- the generic pass ----

  /** The `ReccmpEvent` kinds the modelled passes and checks report. */
  datatype EventKind = NoMatch | NonUniqueSymbol | AmbiguousMatch | InvalidUserData

  /** A report: the event kind and the orig address it is about. */
  datatype Event = Event(kind: EventKind, addr: int)

  /**
   * One orig row of a pass: its address, the index keys to try in order, and
   * whether a key that still has values after the pop is reported.
   */
  datatype Probe = Probe(addr: int, keys: seq<string>, reportNonUnique: bool)

  datatype PassState = PassState(index: Index, matches: seq<(int, int)>, events: seq<Event>)

  /** The first of the keys present in the index. */
  function FirstKey(m: Index, keys: seq<string>): (r: Option<string>)
    ensures r.None? <==> forall i :: 0 <= i < |keys| ==> keys[i] !in m
    ensures r.Some? ==> r.value in m && r.value in keys
    ensures r.Some? && |keys| > 0 && keys[0] in m ==> r.value == keys[0]
  {
    if |keys| == 0 then None
    else if keys[0] in m then Some(keys[0])
    else
      var rest := FirstKey(m, keys[1..]);
      assert forall i :: 1 <= i < |keys| ==> keys[i] == keys[1..][i - 1];
      rest
  }

  /** One orig row: pop and match the first present key, or report NO_MATCH. */
  function Step(s: PassState, p: Probe): (r: PassState)
    requires NonEmptyLists(s.index)
    ensures NonEmptyLists(r.index)
  {
    match FirstKey(s.index, p.keys)
    case None => s.(events := s.events + [Event(NoMatch, p.addr)])
    case Some(k) =>
      var (m, v) := IndexPop(s.index, k);
      var note := if p.reportNonUnique && k in m then [Event(NonUniqueSymbol, p.addr)] else [];
      PassState(m, s.matches + [(p.addr, v)], s.events + note)
  }

  /** The pass over the orig rows in order. */
  function Pass(m: Index, probes: seq<Probe>): (r: PassState)
    requires NonEmptyLists(m)
    ensures NonEmptyLists(r.index)
  {
    if probes == [] then PassState(m, [], [])
    else Step(Pass(m, probes[..|probes| - 1]), probes[|probes| - 1])
  }

  /**
   * Each orig row either gets one match or one NO_MATCH event, never both;
   * a NON_UNIQUE event is added exactly when the popped key still has values.
   */
  lemma StepOutcome(s: PassState, p: Probe)
    requires NonEmptyLists(s.index)
    ensures var r := Step(s, p);
      && (FirstKey(s.index, p.keys).None? <==> r.matches == s.matches)
      && (FirstKey(s.index, p.keys).None? ==> r.events == s.events + [Event(NoMatch, p.addr)] && r.index == s.index)
      && (FirstKey(s.index, p.keys).Some? ==>
            |r.matches| == |s.matches| + 1 && r.matches[..|s.matches|] == s.matches
            && r.matches[|s.matches|] == (p.addr, s.index[FirstKey(s.index, p.keys).value][0])
            && (r.events == s.events + [Event(NonUniqueSymbol, p.addr)] <==>
                  p.reportNonUnique && |s.index[FirstKey(s.index, p.keys).value]| > 1)
            && (r.events == s.events <==>
                  !(p.reportNonUnique && |s.index[FirstKey(s.index, p.keys).value]| > 1)))
  {
    var r := Step(s, p);
    match FirstKey(s.index, p.keys)
    case None =>
    case Some(k) =>
      assert r.matches[..|s.matches|] == s.matches;
  }

  /** Distinct addresses in a list. */
  predicate NoDup(s: seq<int>)
  {
    forall i, j :: 0 <= i < j < |s| ==> s[i] != s[j]
  }

  /** No address appears twice anywhere in the index. */
  ghost predicate DistinctValues(m: Index)
  {
    && (forall k :: k in m ==> NoDup(m[k]))
    && (forall k1, k2, v :: k1 in m && k2 in m && k1 != k2 && v in m[k1] ==> v !in m[k2])
  }

  /** The addresses of a list of pairs: the recomp side of matches, or the values of entries. */
  function Recomps<A>(pairs: seq<(A, int)>): (r: seq<int>)
    ensures |r| == |pairs| && forall i :: 0 <= i < |r| ==> r[i] == pairs[i].1
  {
    seq(|pairs|, i requires 0 <= i < |pairs| => pairs[i].1)
  }

  /** What the pass keeps true: each remaining value came from the entries under its key, and none was matched yet. */
  ghost predicate PassInv(entries: seq<(string, int)>, s: PassState)
  {
    && NonEmptyLists(s.index)
    && DistinctValues(s.index)
    && (forall k, v :: k in s.index && v in s.index[k] ==> (k, v) in entries)
    && (forall k, i :: k in s.index && 0 <= i < |s.matches| ==> s.matches[i].1 !in s.index[k])
    && NoDup(Recomps(s.matches))
  }

  /** Entries with distinct addresses build an index with distinct values. */
  lemma {:induction false} BuiltDistinct(entries: seq<(string, int)>)
    requires NoDup(Recomps(entries))
    ensures DistinctValues(Built(entries))
    ensures forall k, v :: k in Built(entries) && v in Built(entries)[k] ==> (k, v) in entries
    ensures forall k, v :: k in Built(entries) && v in Built(entries)[k] ==> v in Recomps(entries)
  {
    if entries != [] {
      var pre := entries[..|entries| - 1];
      var last := entries[|entries| - 1];
      assert Recomps(pre) == Recomps(entries)[..|pre|];
      BuiltDistinct(pre);
      var b := Built(pre);
      assert last.1 !in Recomps(pre) by {
        forall i | 0 <= i < |pre| ensures Recomps(pre)[i] != last.1 {
          assert Recomps(entries)[i] != Recomps(entries)[|pre|];
        }
      }
      assert Recomps(entries) == Recomps(pre) + [last.1];
    }
  }

  lemma StepKeepsInv(entries: seq<(string, int)>, s: PassState, p: Probe)
    requires PassInv(entries, s)
    ensures PassInv(entries, Step(s, p))
  {
    match FirstKey(s.index, p.keys)
    case None =>
    case Some(k) =>
      var (m, v) := IndexPop(s.index, k);
      var r := Step(s, p);
      assert v in s.index[k];
      forall x | x in m
        ensures v !in m[x]
      {
        if x == k {
          forall j | 0 <= j < |m[x]| ensures m[x][j] != v {
            assert m[x][j] == s.index[k][j + 1];
          }
        }
      }
      assert Recomps(r.matches) == Recomps(s.matches) + [v];
      forall i | 0 <= i < |s.matches|
        ensures s.matches[i].1 != v
      {
        assert s.matches[i].1 !in s.index[k];
      }
  }

  lemma {:induction false} PassKeepsInv(entries: seq<(string, int)>, probes: seq<Probe>)
    requires NoDup(Recomps(entries))
    ensures PassInv(entries, Pass(Built(entries), probes))
  {
    if probes == [] {
      BuiltDistinct(entries);
    } else {
      PassKeepsInv(entries, probes[..|probes| - 1]);
      StepKeepsInv(entries, Pass(Built(entries), probes[..|probes| - 1]), probes[|probes| - 1]);
    }
  }

  /** When the entries' addresses are distinct, no recomp address is matched twice. */
  lemma PassUsesRecompOnce(entries: seq<(string, int)>, probes: seq<Probe>)
    requires NoDup(Recomps(entries))
    ensures NoDup(Recomps(Pass(Built(entries), probes).matches))
  {
    PassKeepsInv(entries, probes);
  }

  /** Some probe at the match's orig address has a key under which its recomp address was added. */
  ghost predicate Keyed(entries: seq<(string, int)>, probes: seq<Probe>, m: (int, int))
  {
    exists j, k :: 0 <= j < |probes| && probes[j].addr == m.0 && k in probes[j].keys && (k, m.1) in entries
  }

  /** Every match pairs a probed orig address with a recomp address added under one of its keys. */
  lemma {:induction false} PassMatchesAreKeyed(entries: seq<(string, int)>, probes: seq<Probe>)
    requires NoDup(Recomps(entries))
    ensures forall i :: 0 <= i < |Pass(Built(entries), probes).matches| ==>
      Keyed(entries, probes, Pass(Built(entries), probes).matches[i])
  {
    if probes != [] {
      var pre := probes[..|probes| - 1];
      var p := probes[|probes| - 1];
      PassMatchesAreKeyed(entries, pre);
      PassKeepsInv(entries, pre);
      var s := Pass(Built(entries), pre);
      var ms := Pass(Built(entries), probes).matches;
      StepOutcome(s, p);
      forall i | 0 <= i < |ms|
        ensures Keyed(entries, probes, ms[i])
      {
        if i < |s.matches| {
          assert ms[i] == s.matches[i];
          assert Keyed(entries, pre, s.matches[i]);
          var j, k :| 0 <= j < |pre| && pre[j].addr == ms[i].0 && k in pre[j].keys && (k, ms[i].1) in entries;
          assert probes[j] == pre[j];
        } else {
          var k := FirstKey(s.index, p.keys).value;
          assert s.index[k][0] in s.index[k];
          assert probes[|probes| - 1] == p;
          assert (k, ms[i].1) in entries;
        }
      }
    }
  }

  /** Some orig row of the pass has address `a`. */
  ghost predicate ProbedAddr(probes: seq<Probe>, a: int)
  {
    exists j :: 0 <= j < |probes| && probes[j].addr == a
  }

  /**
   * With the orig rows in ascending address order, the matches are too:
   * every match belongs to an orig row and no orig row is matched twice.
   */
  lemma {:induction false} PassOrigsAscending(m: Index, probes: seq<Probe>)
    requires NonEmptyLists(m)
    requires forall i, j :: 0 <= i < j < |probes| ==> probes[i].addr < probes[j].addr
    ensures forall i :: 0 <= i < |Pass(m, probes).matches| ==> ProbedAddr(probes, Pass(m, probes).matches[i].0)
    ensures forall i, j :: 0 <= i < j < |Pass(m, probes).matches| ==>
      Pass(m, probes).matches[i].0 < Pass(m, probes).matches[j].0
  {
    if probes != [] {
      var pre := probes[..|probes| - 1];
      var p := probes[|probes| - 1];
      PassOrigsAscending(m, pre);
      var s := Pass(m, pre);
      var ms := Pass(m, probes).matches;
      StepOutcome(s, p);
      forall i | 0 <= i < |s.matches| ensures ms[i] == s.matches[i] && ProbedAddr(probes, ms[i].0) && ms[i].0 < p.addr {
        var j :| 0 <= j < |pre| && pre[j].addr == s.matches[i].0;
        assert probes[j] == pre[j];
      }
      if |ms| > |s.matches| {
        assert ProbedAddr(probes, ms[|s.matches|].0) by { assert probes[|probes| - 1] == p; }
      }
    }
  }

  /**
   * The pass as run: build an `EntityIndex` from the recomp entries, then walk
   * the orig rows, popping the first present key.
   */
  method RunIndexPass(entries: seq<(string, int)>, probes: seq<Probe>) returns (matches: seq<(int, int)>, events: seq<Event>)
    ensures matches == Pass(Built(entries), probes).matches
    ensures events == Pass(Built(entries), probes).events
  {
    var index := BuildIndex(entries);
    matches, events := [], [];
    var j := 0;
    while j < |probes|
      invariant 0 <= j <= |probes|
      invariant index.Valid()
      invariant PassState(index.entries, matches, events) == Pass(Built(entries), probes[..j])
    {
      assert probes[..j + 1][..j] == probes[..j];
      matches, events := ProbeStep(index, probes[j], matches, events);
      j := j + 1;
    }
    assert probes[..|probes|] == probes;
  }

  /** The index built from the recomp entries, added in order. */
  method BuildIndex(entries: seq<(string, int)>) returns (index: EntityIndex)
    ensures fresh(index) && index.Valid() && index.entries == Built(entries)
  {
    index := new EntityIndex();
    var i := 0;
    while i < |entries|
      invariant 0 <= i <= |entries|
      invariant fresh(index) && index.Valid() && index.entries == Built(entries[..i])
    {
      assert entries[..i + 1][..i] == entries[..i];
      index.Add(entries[i].0, entries[i].1);
      i := i + 1;
    }
    assert entries[..|entries|] == entries;
  }

  /** One orig row: pop the first present key and match it, or report NO_MATCH. */
  method ProbeStep(index: EntityIndex, p: Probe, matches: seq<(int, int)>, events: seq<Event>)
    returns (matches': seq<(int, int)>, events': seq<Event>)
    requires index.Valid()
    modifies index
    ensures index.Valid()
    ensures PassState(index.entries, matches', events') == Step(PassState(old(index.entries), matches, events), p)
  {
    matches', events' := matches, events;
    var key := FirstKey(index.entries, p.keys);
    if key.Some? {
      var value := index.Pop(key.value);
      if p.reportNonUnique && index.Contains(key.value) {
        events' := events' + [Event(NonUniqueSymbol, p.addr)];
      }
      matches' := matches' + [(p.addr, value)];
    } else {
      events' := events' + [Event(NoMatch, p.addr)];
    }
  }
}
