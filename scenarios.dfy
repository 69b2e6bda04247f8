/**
 * Worked presence scenarios, each checked against the transition function of
 * the handler and the usage store.
 */
module Scenarios {

  import opened Wrappers
  import opened Activities
  import opened Games
  import opened Presence

  /** The two untyped activities the switching scenarios use. */
  const A: Activity := Activity("A", None)
  const B: Activity := Activity("B", None)

  lemma DedupOne(x: Activity)
    ensures Dedup([x]) == [x]
  {
    assert [x][..0] == [];
    assert NameSet([]) == {};
    assert Dedup([x]) == [] + [x];
  }

  lemma DedupTwo(x: Activity, y: Activity)
    requires x.name != y.name
    ensures Dedup([x, y]) == [x, y]
  {
    assert [x, y][..1] == [x];
    DedupOne(x);
    NameSetOne(x);
    assert Dedup([x, y]) == [x] + [y];
  }

  lemma KeepEligibleOne(x: Activity)
    requires x.kind.None?
    ensures KeepEligible({}, [x]) == [x]
  {
    assert [x][..0] == [];
    assert KeepEligible({}, [x]) == [] + [x];
  }

  lemma KeepEligibleTwo(x: Activity, y: Activity)
    requires x.kind.None? && y.kind.None?
    ensures KeepEligible({}, [x, y]) == [x, y]
  {
    assert [x, y][..1] == [x];
    KeepEligibleOne(x);
    assert KeepEligible({}, [x, y]) == [x] + [y];
  }

  /** An untyped, unbanned activity on its own survives stripping. */
  lemma StripOne(x: Activity)
    requires x.kind.None?
    ensures Strip({}, [x]) == [x]
  {
    DedupOne(x);
    KeepEligibleOne(x);
  }

  lemma NameSetOne(x: Activity)
    ensures NameSet([x]) == {x.name}
  {
  }

  lemma NameSetTwo(x: Activity, y: Activity)
    ensures NameSet([x, y]) == {x.name, y.name}
  {
  }

  /** Two untyped, unbanned activities of distinct names survive stripping. */
  lemma StripTwo(x: Activity, y: Activity)
    requires x.kind.None? && y.kind.None? && x.name != y.name
    ensures Strip({}, [x, y]) == [x, y]
  {
    DedupTwo(x, y);
    KeepEligibleTwo(x, y);
  }

  /** The activities named `y.name` among two of distinct names. */
  lemma MatchingSecond(x: Activity, y: Activity)
    requires x.name != y.name
    ensures Matching(y.name, [x, y]) == [y]
    ensures Translate([y.name], [x, y]) == [y]
  {
    assert [x, y][..1] == [x];
    assert [x][..0] == [];
    assert Matching(y.name, [x]) == [] + [];
    assert Matching(y.name, [x, y]) == [] + [y];
    assert [y.name][..0] == [];
    assert Translate([y.name], [x, y]) == [] + [y];
  }

  /** Storing one untracked-free session into an empty table. */
  lemma StoreOneFresh(user: UserId, session: ActivityData, now: int)
    requires session.name != Untracked
    ensures StoredAll(map[], user, [session], now) ==
      map[session.name := GameData(session.name, SessionMinutes(session.start, now), map[user := SessionMinutes(session.start, now)])]
  {
    assert [session][..0] == [];
    var m := SessionMinutes(session.start, now);
    assert map[user := 0][user := 0 + m] == map[user := m];
  }

  /**
   * User 42 starts Chess at time 0 and stops 125 seconds later: the session
   * closes and the Chess record holds 2 minutes, all of them user 42's.
   */
  lemma ChessScenario()
    ensures var chess := [Activity("Chess", None)];
      var first := PresenceStep(map[], {}, 42, false, [], chess, 0, []);
      var second := PresenceStep(first.tracking, {}, 42, false, chess, [], 125 * MicrosPerSecond, []);
      first == Step(map[42 := [ActivityData("Chess", 0)]], []) &&
      second == Step(map[], [ActivityData("Chess", 0)]) &&
      StoredAll(map[], 42, second.closed, 125 * MicrosPerSecond) == map["Chess" := GameData("Chess", 2, map[42 := 2])]
  {
    StripOne(Activity("Chess", None));
    assert StartSessions([Activity("Chess", None)], 0) == [ActivityData("Chess", 0)];
    assert SessionMinutes(0, 125 * MicrosPerSecond) == 2;
    StoreOneFresh(42, ActivityData("Chess", 0), 125 * MicrosPerSecond);
  }

  lemma CompareAddsSecond()
    ensures CompareByNames([A], [A, B]) == Comparison(false, {}, {"B"})
  {
    NameSetOne(A);
    NameSetTwo(A, B);
  }

  lemma UnstoredSecond()
    ensures Unstored([B], [ActivityData("A", 0)]) == [B]
  {
    assert SessionNames([ActivityData("A", 0)]) == {"A"};
    assert [B][..0] == [];
    assert Unstored([B], [ActivityData("A", 0)]) == [] + [B];
  }

  /** The reconciliation of the first switch, from the stripped activity lists. */
  lemma AddsSecondReconcile(now: int)
    ensures ReconcileStep(map[7 := [ActivityData("A", 0)]], 7, [A], [A, B], now, ["B"]) ==
      Step(map[7 := [ActivityData("A", 0), ActivityData("B", now)]], [])
  {
    var after := [ActivityData("A", 0), ActivityData("B", now)];
    CompareAddsSecond();
    AddsSecondEntry(now);
    assert map[7 := [ActivityData("A", 0)]][7 := after] == map[7 := after];
  }

  /** The new entry of the first switch, and the sessions it closes: none. */
  lemma AddsSecondEntry(now: int)
    ensures NewEntry([ActivityData("A", 0)], {}, {"B"}, Translate(["B"], [A, B]), now) ==
      [ActivityData("A", 0), ActivityData("B", now)]
    ensures ClosedBy([ActivityData("A", 0)], {}) == []
  {
    MatchingSecond(A, B);
    AddsSecondReconciled(now);
    assert SweepFrom([ActivityData("A", 0)], 0, {}) == Sweep([ActivityData("A", 0)], []);
  }

  /** Keeping A and opening B beside it. */
  lemma AddsSecondReconciled(now: int)
    ensures Reconciled([ActivityData("A", 0)], {}, {"B"}, [B], now) == [ActivityData("A", 0), ActivityData("B", now)]
  {
    var stored := [ActivityData("A", 0)];
    assert SweepFrom(stored, 0, {}) == Sweep(stored, []);
    UnstoredSecond();
    assert stored + [ActivityData("B", now)] == [ActivityData("A", 0), ActivityData("B", now)];
  }

  /** User 7 goes from A to A and B: B opens now, A keeps its start, nothing is stored. */
  lemma SwitchAddsSecond()
    ensures PresenceStep(map[7 := [ActivityData("A", 0)]], {}, 7, false, [A], [A, B], 60 * MicrosPerSecond, ["B"]) ==
      Step(map[7 := [ActivityData("A", 0), ActivityData("B", 60 * MicrosPerSecond)]], [])
  {
    StripOne(A);
    StripTwo(A, B);
    AddsSecondReconcile(60 * MicrosPerSecond);
  }

  /** The reconciliation of the second switch, from the stripped activity lists. */
  lemma DropsFirstReconcile(now: int)
    ensures ReconcileStep(map[7 := [ActivityData("A", 0), ActivityData("B", 60 * MicrosPerSecond)]], 7, [A, B], [B], now, []) ==
      Step(map[7 := [ActivityData("B", 60 * MicrosPerSecond)]], [ActivityData("A", 0)])
  {
    var stored := [ActivityData("A", 0), ActivityData("B", 60 * MicrosPerSecond)];
    var t := map[7 := stored];
    NameSetOne(B);
    NameSetTwo(A, B);
    assert CompareByNames([A, B], [B]) == Comparison(false, {"A"}, {});
    var rest := [ActivityData("B", 60 * MicrosPerSecond)];
    assert stored[..0] + stored[1..] == rest;
    assert SweepFrom(rest, 1, {"A"}) == Sweep(rest, []);
    assert SweepFrom(stored, 0, {"A"}) == Sweep(rest, [ActivityData("A", 0)]);
    assert Reconciled(stored, {"A"}, {}, [], now) == rest by {
      assert rest + [] == rest;
    }
    assert t[7 := rest] == map[7 := rest];
  }

  /** User 7 then goes from A and B to B: A closes, is stored, and B stays open. */
  lemma SwitchDropsFirst()
    ensures var now := 120 * MicrosPerSecond;
      var r := PresenceStep(map[7 := [ActivityData("A", 0), ActivityData("B", 60 * MicrosPerSecond)]], {}, 7, false, [A, B], [B], now, []);
      r == Step(map[7 := [ActivityData("B", 60 * MicrosPerSecond)]], [ActivityData("A", 0)]) &&
      StoredAll(map[], 7, r.closed, now) == map["A" := GameData("A", 2, map[7 := 2])]
  {
    var now := 120 * MicrosPerSecond;
    StripOne(B);
    StripTwo(A, B);
    DropsFirstReconcile(now);
    DropsFirstStored();
  }

  lemma DropsFirstStored()
    ensures StoredAll(map[], 7, [ActivityData("A", 0)], 120 * MicrosPerSecond) == map["A" := GameData("A", 2, map[7 := 2])]
  {
    assert SessionMinutes(0, 120 * MicrosPerSecond) == 2;
    StoreOneFresh(7, ActivityData("A", 0), 120 * MicrosPerSecond);
  }
}
