/** The event table of `BaseClient`: per event name, a list of (handler,
    condition) pairs in the order they were added, and the rule that decides
    which of them an occurrence of the event runs. */
module Events {
  import opened Wire

  /** A handler list: each handler with its condition (`None`: any cause). */
  type Entries<H, K> = seq<(H, Option<K>)>

  /** The test in `_event_call`: the occurrence has no condition, or the
      handler has none, or the two are equal. */
  predicate Runs<K(==)>(occ: Option<K>, cond: Option<K>)
  {
    occ.None? || cond.None? || occ == cond
  }

  /** The handlers an occurrence with condition `occ` runs, in list order. */
  function Matching<H, K(==)>(hs: Entries<H, K>, occ: Option<K>): (r: seq<H>)
    ensures |r| <= |hs|
  {
    if hs == [] then []
    else (if Runs(occ, hs[0].1) then [hs[0].0] else []) + Matching(hs[1..], occ)
  }

  /** Running a list is running its first part, then its second: the
      handlers run in the order they were added. */
  lemma {:induction false} MatchingConcat<H, K>(a: Entries<H, K>, b: Entries<H, K>, occ: Option<K>)
    ensures Matching(a + b, occ) == Matching(a, occ) + Matching(b, occ)
  {
    if a == [] {
      assert a + b == b;
    } else {
      var first: seq<H> := if Runs(occ, a[0].1) then [a[0].0] else [];
      assert (a + b)[0] == a[0] && (a + b)[1..] == a[1..] + b;
      assert Matching(a + b, occ) == first + Matching(a[1..] + b, occ);
      MatchingConcat(a[1..], b, occ);
      assert Matching(a, occ) == first + Matching(a[1..], occ);
      assert first + (Matching(a[1..], occ) + Matching(b, occ)) == (first + Matching(a[1..], occ)) + Matching(b, occ);
    }
  }

  /** A single entry runs exactly when its condition is absent, the
      occurrence's is absent, or they are equal; an occurrence without a
      condition runs every handler. */
  lemma MatchingOne<H, K>(h: H, cond: Option<K>, occ: Option<K>)
    ensures Matching([(h, cond)], occ) == if occ.None? || cond.None? || occ == cond then [h] else []
  {
    assert [(h, cond)][1..] == [];
  }

  /** Every handler of the list runs when the occurrence carries no
      condition. */
  lemma {:induction false} MatchingAll<H, K>(hs: Entries<H, K>)
    ensures |Matching(hs, None)| == |hs|
    ensures forall i :: 0 <= i < |hs| ==> Matching(hs, None)[i] == hs[i].0
  {
    if hs != [] {
      MatchingAll(hs[1..]);
    }
  }

  /** The handlers of a list with an unconditioned handler `h` at index `i`
      include `h` for every occurrence. */
  lemma {:induction false} UnconditionedRuns<H, K>(hs: Entries<H, K>, i: nat, occ: Option<K>)
    requires i < |hs| && hs[i].1.None?
    ensures hs[i].0 in Matching(hs, occ)
  {
    if i > 0 {
      UnconditionedRuns(hs[1..], i - 1, occ);
    }
  }

  /** `add_event_handler` on the `defaultdict(list)`: the pair goes to the end
      of the event's list (a missing list starts empty); every other event's
      list is untouched. */
  function Added<H, K>(table: map<string, Entries<H, K>>, event: string, h: H, cond: Option<K>)
    : (r: map<string, Entries<H, K>>)
    ensures r.Keys == table.Keys + {event}
    ensures r[event] == (if event in table then table[event] else []) + [(h, cond)]
    ensures forall e :: e in table && e != event ==> r[e] == table[e]
  {
    table[event := (if event in table then table[event] else []) + [(h, cond)]]
  }

  /** After adding, the event runs what it ran before, then the new handler
      when its condition admits the occurrence. */
  lemma AddedRunsLast<H, K>(table: map<string, Entries<H, K>>, event: string, h: H, cond: Option<K>, occ: Option<K>)
    ensures Matching(Added(table, event, h, cond)[event], occ) ==
              Matching(if event in table then table[event] else [], occ) +
              (if Runs(occ, cond) then [h] else [])
  {
    var before := if event in table then table[event] else [];
    MatchingConcat(before, [(h, cond)], occ);
    MatchingOne(h, cond, occ);
  }
}
