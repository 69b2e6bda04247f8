/**
 * on_presence_update of main.py: the per-user state machine over
 * tracking_list, a map from user id to the user's open sessions. Each
 * presence event compares the before and after activity lists, opens
 * sessions, closes sessions (handing each closed one to the usage store) or
 * keeps them.
 */
module Presence {

  import opened Activities
  import opened Games

  type Tracking = map<UserId, seq<ActivityData>>

  /** The new tracking map and the sessions handed to the store, in order. */
  datatype Step = Step(tracking: Tracking, closed: seq<ActivityData>)

  /** tracking_list.get(id), with a missing or None entry read as no sessions. */
  function Lookup(t: Tracking, id: UserId): seq<ActivityData>
  {
    if id in t then t[id] else []
  }

  function SessionNames(s: seq<ActivityData>): set<string>
  {
    set x | x in s :: x.name
  }

  /** No two sessions share a label. */
  ghost predicate UniqueLabels(s: seq<ActivityData>)
  {
    forall i, j :: 0 <= i < j < |s| ==> s[i].name != s[j].name
  }

  /** `order` lists every element of `names` exactly once. */
  ghost predicate Enumerates(order: seq<string>, names: set<string>)
  {
    multiset(order) == multiset(names)
  }

  /** An element counted at most once in a sequence occurs at one index only. */
  lemma SingleOccurrence(s: seq<string>, i: int, j: int)
    requires 0 <= i < j < |s| && multiset(s)[s[i]] <= 1
    ensures s[i] != s[j]
  {
    assert s == s[..j] + s[j..];
    assert s[..j][i] == s[i] && s[j..][0] == s[j];
    assert multiset(s) == multiset(s[..j]) + multiset(s[j..]);
  }

  lemma EnumeratesFacts(order: seq<string>, names: set<string>)
    requires Enumerates(order, names)
    ensures forall x :: x in order <==> x in names
    ensures forall i, j :: 0 <= i < j < |order| ==> order[i] != order[j]
  {
    assert forall x :: x in order <==> x in multiset(order);
    forall i, j | 0 <= i < j < |order| ensures order[i] != order[j] {
      SingleOccurrence(order, i, j);
    }
  }

  /** [ActivityData(x) for x in acts], every session starting at `now`. */
  function StartSessions(acts: seq<Activity>, now: int): seq<ActivityData>
  {
    seq(|acts|, i requires 0 <= i < |acts| => ActivityData(acts[i].name, now))
  }

  /** The activities whose name has no session in `kept`, in order. */
  function Unstored(acts: seq<Activity>, kept: seq<ActivityData>): seq<Activity>
  {
    if acts == [] then []
    else
      Unstored(acts[..|acts| - 1], kept) +
      (if acts[|acts| - 1].name in SessionNames(kept) then [] else [acts[|acts| - 1]])
  }

  // ---------------------------------------------------------------------------
  // The removal loop

  datatype Sweep = Sweep(kept: seq<ActivityData>, closed: seq<ActivityData>)

  /**
   * `for value in list: if value.name in toRemove: list.remove(value)`,
   * continued from iterator position i. Python's list iterator keeps its
   * index while the list shrinks, so the element after each removed one is
   * never looked at.
   */
  function SweepFrom(list: seq<ActivityData>, i: nat, toRemove: set<string>): (r: Sweep)
    ensures |r.kept| + |r.closed| == |list|
    ensures |r.closed| <= if i <= |list| then |list| - i else 0
    decreases |list| + 1 - i
  {
    if i >= |list| then Sweep(list, [])
    else if list[i].name in toRemove then
      var rest := SweepFrom(list[..i] + list[i + 1..], i + 1, toRemove);
      Sweep(rest.kept, [list[i]] + rest.closed)
    else SweepFrom(list, i + 1, toRemove)
  }

  /** Every session is either kept or closed, and none twice. */
  lemma {:induction false} SweepPartition(list: seq<ActivityData>, i: nat, toRemove: set<string>)
    ensures multiset(SweepFrom(list, i, toRemove).kept) + multiset(SweepFrom(list, i, toRemove).closed) == multiset(list)
    decreases |list| + 1 - i
  {
    if i < |list| {
      if list[i].name in toRemove {
        var rest := list[..i] + list[i + 1..];
        SweepPartition(rest, i + 1, toRemove);
        MultisetWithout(list, i);
      } else {
        SweepPartition(list, i + 1, toRemove);
      }
    }
  }

  lemma MultisetWithout(list: seq<ActivityData>, i: nat)
    requires i < |list|
    ensures multiset(list[..i] + list[i + 1..]) + multiset{list[i]} == multiset(list)
  {
    assert list == list[..i] + [list[i]] + list[i + 1..];
  }

  /** Only stored sessions named in `toRemove` are closed. */
  lemma {:induction false} SweepClosesOnlyRemoved(list: seq<ActivityData>, i: nat, toRemove: set<string>)
    ensures forall s :: s in SweepFrom(list, i, toRemove).closed ==> s in list && s.name in toRemove
    decreases |list| + 1 - i
  {
    if i < |list| {
      if list[i].name in toRemove {
        var rest := list[..i] + list[i + 1..];
        SweepClosesOnlyRemoved(rest, i + 1, toRemove);
        forall s | s in rest ensures s in list {
          var j :| 0 <= j < |rest| && rest[j] == s;
          if j < i {
            assert list[j] == s;
          } else {
            assert list[j + 1] == s;
          }
        }
      } else {
        SweepClosesOnlyRemoved(list, i + 1, toRemove);
      }
    }
  }

  /** Sessions already passed, and sessions not named in `toRemove`, are kept. */
  lemma {:induction false} SweepKeeps(list: seq<ActivityData>, i: nat, toRemove: set<string>)
    ensures forall j :: 0 <= j < |list| && (j < i || list[j].name !in toRemove) ==>
      list[j] in SweepFrom(list, i, toRemove).kept
    decreases |list| + 1 - i
  {
    if i < |list| {
      if list[i].name in toRemove {
        var rest := list[..i] + list[i + 1..];
        SweepKeeps(rest, i + 1, toRemove);
        forall j | 0 <= j < |list| && (j < i || list[j].name !in toRemove)
          ensures list[j] in SweepFrom(list, i, toRemove).kept
        {
          if j < i {
            assert rest[j] == list[j];
          } else {
            assert j > i && rest[j - 1] == list[j];
          }
        }
      } else {
        SweepKeeps(list, i + 1, toRemove);
      }
    }
  }

  /**
   * The skip: the session right after a removed one stays, whatever its
   * name, so a name of `toRemove` can survive the loop.
   */
  lemma SweepSkipsNext(list: seq<ActivityData>, i: nat, toRemove: set<string>)
    requires i + 1 < |list| && list[i].name in toRemove
    ensures list[i + 1] in SweepFrom(list, i, toRemove).kept
  {
    var rest := list[..i] + list[i + 1..];
    SweepKeeps(rest, i + 1, toRemove);
    assert rest[i] == list[i + 1];
  }

  /** Two sessions both to be removed: the second one is still tracked afterwards. */
  lemma SweepSkipExample()
    ensures SweepFrom([ActivityData("A", 0), ActivityData("B", 0)], 0, {"A", "B"}) ==
      Sweep([ActivityData("B", 0)], [ActivityData("A", 0)])
  {
    var list := [ActivityData("A", 0), ActivityData("B", 0)];
    assert list[..0] + list[1..] == [ActivityData("B", 0)];
  }

  lemma UniqueWithout(list: seq<ActivityData>, i: nat)
    requires i < |list| && UniqueLabels(list)
    ensures UniqueLabels(list[..i] + list[i + 1..])
  {
    var rest := list[..i] + list[i + 1..];
    forall a, b | 0 <= a < b < |rest| ensures rest[a].name != rest[b].name {
      var a', b' := if a < i then a else a + 1, if b < i then b else b + 1;
      assert rest[a] == list[a'] && rest[b] == list[b'];
    }
  }

  /** The kept sessions keep distinct labels. */
  lemma {:induction false} SweepKeepsUnique(list: seq<ActivityData>, i: nat, toRemove: set<string>)
    requires UniqueLabels(list)
    ensures UniqueLabels(SweepFrom(list, i, toRemove).kept)
    decreases |list| + 1 - i
  {
    if i < |list| {
      if list[i].name in toRemove {
        UniqueWithout(list, i);
        SweepKeepsUnique(list[..i] + list[i + 1..], i + 1, toRemove);
      } else {
        SweepKeepsUnique(list, i + 1, toRemove);
      }
    }
  }

  // ---------------------------------------------------------------------------
  // Helpers about the sessions the handler creates

  lemma StartSessionsFacts(acts: seq<Activity>, now: int)
    ensures SessionNames(StartSessions(acts, now)) == NameSet(acts)
    ensures UniqueNames(acts) ==> UniqueLabels(StartSessions(acts, now))
    ensures forall s :: s in StartSessions(acts, now) ==> s.start == now
  {
    var r := StartSessions(acts, now);
    forall n | n in NameSet(acts) ensures n in SessionNames(r) {
      var a :| a in acts && a.name == n;
      var i :| 0 <= i < |acts| && acts[i] == a;
      assert r[i] in r;
    }
    forall n | n in SessionNames(r) ensures n in NameSet(acts) {
      var s :| s in r && s.name == n;
      var i :| 0 <= i < |r| && r[i] == s;
      assert acts[i] in acts;
    }
  }

  lemma {:induction false} UnstoredMembers(acts: seq<Activity>, kept: seq<ActivityData>)
    ensures forall x :: x in Unstored(acts, kept) <==> x in acts && x.name !in SessionNames(kept)
  {
    if acts != [] {
      UnstoredMembers(acts[..|acts| - 1], kept);
      assert acts == acts[..|acts| - 1] + [acts[|acts| - 1]];
    }
  }

  lemma {:induction false} UnstoredUnique(acts: seq<Activity>, kept: seq<ActivityData>)
    requires UniqueNames(acts)
    ensures UniqueNames(Unstored(acts, kept))
  {
    if acts != [] {
      var p := acts[..|acts| - 1];
      UniquePrefix(acts, |acts| - 1);
      UnstoredUnique(p, kept);
      UnstoredMembers(p, kept);
      LastNameIsNew(acts);
      var u := Unstored(p, kept);
      forall i | 0 <= i < |u| ensures u[i].name != acts[|acts| - 1].name {
        assert u[i] in u;
        var j :| 0 <= j < |p| && p[j] == u[i];
        NameInNameSet(p, j);
      }
    }
  }


  lemma UniqueLabelsConcat(a: seq<ActivityData>, b: seq<ActivityData>)
    requires UniqueLabels(a) && UniqueLabels(b) && SessionNames(a) !! SessionNames(b)
    ensures UniqueLabels(a + b)
  {
    var ab := a + b;
    forall i, j | 0 <= i < j < |ab| ensures ab[i].name != ab[j].name {
      if j < |a| {
        assert ab[i] == a[i] && ab[j] == a[j];
      } else if i >= |a| {
        assert ab[i] == b[i - |a|] && ab[j] == b[j - |a|];
      } else {
        assert ab[i] == a[i] && ab[j] == b[j - |a|];
        assert a[i] in a && b[j - |a|] in b;
        assert ab[i].name in SessionNames(a) && ab[j].name in SessionNames(b);
      }
    }
  }

  /**
   * The translated activities for an enumeration of names drawn from a
   * distinct-named list: one activity per name, distinct names.
   */
  lemma TranslateEnumeration(order: seq<string>, names: set<string>, acts: seq<Activity>)
    requires Enumerates(order, names) && names <= NameSet(acts) && UniqueNames(acts)
    ensures UniqueNames(Translate(order, acts))
    ensures NameSet(Translate(order, acts)) == names
    ensures forall x :: x in Translate(order, acts) ==> x in acts
  {
    EnumeratesFacts(order, names);
    TranslateUnique(order, acts);
    TranslateMembers(order, acts);
    var r := Translate(order, acts);
    forall n | n in names ensures n in NameSet(r) {
      var a :| a in acts && a.name == n;
    }
  }

  // ---------------------------------------------------------------------------
  // The transition

  /** The to_add set of an event with these before and after activities. */
  function ToAdd(banned: set<string>, before: seq<Activity>, after: seq<Activity>): set<string>
  {
    CompareByNames(Strip(banned, before), Strip(banned, after)).toAdd
  }

  /**
   * What on_presence_update does to tracking_list, and which sessions it
   * hands to store_activity_data in order. `addOrder` is the order in which
   * the set to_add is iterated.
   */
  function PresenceStep(t: Tracking, banned: set<string>, id: UserId, isBot: bool,
                        before: seq<Activity>, after: seq<Activity>, now: int, addOrder: seq<string>): (r: Step)
    ensures r.tracking.Keys <= t.Keys + {id}
    ensures forall u :: u in t && u != id ==> u in r.tracking && r.tracking[u] == t[u]
    ensures r.closed != [] ==> !isBot && id in t
  {
    if (|before| == 0 && |after| == 0) || isBot then Step(t, [])
    else if |before| == 0 then OpenStep(t, id, Strip(banned, after), now)
    else if |after| == 0 then CloseStep(t, id)
    else ReconcileStep(t, id, Strip(banned, before), Strip(banned, after), now, addOrder)
  }

  /** From no activity to some: track the eligible ones, if any. */
  function OpenStep(t: Tracking, id: UserId, eligible: seq<Activity>, now: int): (r: Step)
    ensures r.closed == []
    ensures r.tracking.Keys <= t.Keys + {id}
    ensures forall u :: u in t && u != id ==> u in r.tracking && r.tracking[u] == t[u]
  {
    if |eligible| > 0 then Step(t[id := StartSessions(eligible, now)], []) else Step(t, [])
  }

  /** From some activity to none: drop the user's entry and store all its sessions. */
  function CloseStep(t: Tracking, id: UserId): (r: Step)
    ensures r.tracking.Keys <= t.Keys
    ensures r.closed != [] ==> id in t && id !in r.tracking
    ensures forall u :: u in t && u != id ==> u in r.tracking && r.tracking[u] == t[u]
  {
    var stored := Lookup(t, id);
    if |stored| == 0 then Step(t, []) else Step(t - {id}, stored)
  }

  /** Between two non-empty snapshots, given their eligible activities. */
  function ReconcileStep(t: Tracking, id: UserId, eb: seq<Activity>, ea: seq<Activity>, now: int, addOrder: seq<string>): (r: Step)
    ensures r.tracking.Keys <= t.Keys + {id}
    ensures r.closed != [] ==> id in t
    ensures forall u :: u in t && u != id ==> u in r.tracking && r.tracking[u] == t[u]
  {
    var c := CompareByNames(eb, ea);
    if |eb| + |ea| < 1 || c.same then Step(t, [])
    else
      var stored := Lookup(t, id);
      Step(t[id := NewEntry(stored, c.toRemove, c.toAdd, Translate(addOrder, ea), now)], ClosedBy(stored, c.toRemove))
  }

  /**
   * The user's new entry: new sessions for the translated activities when
   * nothing was stored, otherwise the stored ones reconciled.
   */
  function NewEntry(stored: seq<ActivityData>, toRemove: set<string>, toAdd: set<string>,
                    translated: seq<Activity>, now: int): seq<ActivityData>
  {
    if |stored| == 0 then (if toAdd != {} then StartSessions(translated, now) else [])
    else Reconciled(stored, toRemove, toAdd, translated, now)
  }

  /** The sessions the removal loop closes; none when nothing was stored. */
  function ClosedBy(stored: seq<ActivityData>, toRemove: set<string>): seq<ActivityData>
  {
    if |stored| == 0 then [] else SweepFrom(stored, 0, toRemove).closed
  }

  /**
   * The stored sessions after the removal loop, followed by a new session for
   * every translated activity not already tracked (none when to_add is empty).
   */
  function Reconciled(stored: seq<ActivityData>, toRemove: set<string>, toAdd: set<string>,
                      translated: seq<Activity>, now: int): seq<ActivityData>
  {
    var kept := SweepFrom(stored, 0, toRemove).kept;
    kept + (if toAdd != {} then StartSessions(Unstored(translated, kept), now) else [])
  }

  /**
   * The event changes nothing and stores nothing for a bot, for two empty
   * snapshots, for two non-empty snapshots without any eligible activity, and
   * for two non-empty snapshots with the same eligible names.
   */
  lemma StepIgnored(t: Tracking, banned: set<string>, id: UserId, isBot: bool,
                    before: seq<Activity>, after: seq<Activity>, now: int, addOrder: seq<string>)
    requires || isBot
             || (|before| == 0 && |after| == 0)
             || (|before| > 0 && |after| > 0 && Strip(banned, before) == [] && Strip(banned, after) == [])
             || (|before| > 0 && |after| > 0 && NameSet(Strip(banned, before)) == NameSet(Strip(banned, after)))
    ensures PresenceStep(t, banned, id, isBot, before, after, now, addOrder) == Step(t, [])
  {
  }

  /**
   * From no activity to some: a session per eligible activity, all starting
   * now, with distinct labels; nothing is stored and no other user changes.
   */
  lemma StepOpens(t: Tracking, banned: set<string>, id: UserId, isBot: bool,
                  before: seq<Activity>, after: seq<Activity>, now: int, addOrder: seq<string>)
    requires !isBot && |before| == 0 && |after| > 0
    ensures var r := PresenceStep(t, banned, id, isBot, before, after, now, addOrder);
      r.closed == [] &&
      (Strip(banned, after) == [] ==> r.tracking == t) &&
      (Strip(banned, after) != [] ==>
        r.tracking.Keys == t.Keys + {id} &&
        SessionNames(r.tracking[id]) == NameSet(Strip(banned, after)) &&
        UniqueLabels(r.tracking[id]) &&
        (forall s :: s in r.tracking[id] ==> s.start == now && s.name !in banned) &&
        (forall u :: u in t && u != id ==> r.tracking[u] == t[u]))
  {
    var e := Strip(banned, after);
    StripProperties(banned, after);
    StartSessionsFacts(e, now);
    forall s | s in StartSessions(e, now) ensures s.name !in banned {
      assert s.name in SessionNames(StartSessions(e, now));
      var a :| a in e && a.name == s.name;
    }
  }

  /**
   * From some activity to none: the user's entry is dropped and every stored
   * session is handed to the store, in order.
   */
  lemma StepClosesAll(t: Tracking, banned: set<string>, id: UserId, isBot: bool,
                      before: seq<Activity>, after: seq<Activity>, now: int, addOrder: seq<string>)
    requires !isBot && |before| > 0 && |after| == 0
    ensures var r := PresenceStep(t, banned, id, isBot, before, after, now, addOrder);
      r.closed == Lookup(t, id) &&
      (Lookup(t, id) != [] ==> r.tracking == t - {id}) &&
      (Lookup(t, id) == [] ==> r.tracking == t)
  {
  }

  /** The facts about one sweep of a distinct-labelled list that the handler relies on. */
  lemma SweepFacts(stored: seq<ActivityData>, toRemove: set<string>)
    requires UniqueLabels(stored)
    ensures var w := SweepFrom(stored, 0, toRemove);
      (forall s :: s in stored && s.name !in toRemove ==> s in w.kept) &&
      (forall s :: s in w.closed ==> s in stored && s.name in toRemove) &&
      (forall s :: s in w.kept ==> s in stored) &&
      (forall s :: s in stored ==> (s in w.kept <==> s !in w.closed)) &&
      (forall s :: s in stored ==> multiset(w.closed)[s] <= 1) &&
      UniqueLabels(w.kept)
  {
    var w := SweepFrom(stored, 0, toRemove);
    SweepPartition(stored, 0, toRemove);
    SweepClosesOnlyRemoved(stored, 0, toRemove);
    SweepKeeps(stored, 0, toRemove);
    SweepKeepsUnique(stored, 0, toRemove);
    forall s | s in stored && s.name !in toRemove ensures s in w.kept {
      var j :| 0 <= j < |stored| && stored[j] == s;
    }
    forall s | s in stored ensures multiset(w.kept)[s] + multiset(w.closed)[s] == 1 {
      var j :| 0 <= j < |stored| && stored[j] == s;
      CountOfUnique(stored, j);
    }
    forall s | s in w.closed ensures s in stored {
      assert multiset(w.closed)[s] > 0;
      assert multiset(stored)[s] > 0;
    }
    forall s | s in w.kept ensures s in stored {
      assert multiset(w.kept)[s] > 0;
      assert multiset(stored)[s] > 0;
    }
  }

  /**
   * The sessions opened beside `kept` for the translated activities: they
   * start now, carry names of `translated` that `kept` lacks, and keep all
   * labels distinct.
   */
  lemma AddedFacts(kept: seq<ActivityData>, translated: seq<Activity>, now: int)
    requires UniqueLabels(kept) && UniqueNames(translated)
    ensures var added := StartSessions(Unstored(translated, kept), now);
      UniqueLabels(kept + added) &&
      SessionNames(added) == NameSet(translated) - SessionNames(kept) &&
      (forall s :: s in added ==> s.start == now && s.name in NameSet(translated) && s.name !in SessionNames(kept))
  {
    var u := Unstored(translated, kept);
    var added := StartSessions(u, now);
    UnstoredMembers(translated, kept);
    UnstoredUnique(translated, kept);
    StartSessionsFacts(u, now);
    forall s | s in added ensures s.name in NameSet(translated) && s.name !in SessionNames(kept) {
      assert s.name in SessionNames(added);
      var a :| a in u && a.name == s.name;
      assert a in translated;
    }
    forall n | n in NameSet(translated) - SessionNames(kept) ensures n in NameSet(u) {
      var a :| a in translated && a.name == n;
      assert a in u;
    }
    UniqueLabelsConcat(kept, added);
  }

  lemma SessionNamesConcat(a: seq<ActivityData>, b: seq<ActivityData>)
    ensures SessionNames(a + b) == SessionNames(a) + SessionNames(b)
  {
    forall n | n in SessionNames(a + b) ensures n in SessionNames(a) + SessionNames(b) {
      var x :| x in a + b && x.name == n;
    }
  }

  lemma ReconciledFacts(stored: seq<ActivityData>, toRemove: set<string>, toAdd: set<string>,
                        translated: seq<Activity>, now: int)
    requires UniqueLabels(stored) && UniqueNames(translated)
    requires NameSet(translated) == toAdd && toRemove !! toAdd
    ensures var r, closed := Reconciled(stored, toRemove, toAdd, translated, now), SweepFrom(stored, 0, toRemove).closed;
      (forall s :: s in stored && s.name !in toRemove ==> s in r) &&
      (forall s :: s in closed ==> s in stored && s.name in toRemove) &&
      (forall s :: s in stored ==> (s in r <==> s !in closed)) &&
      (forall s :: s in stored ==> multiset(closed)[s] <= 1) &&
      (forall s :: s in r && s !in stored ==> s.start == now && s.name in toAdd) &&
      SessionNames(r) == SessionNames(SweepFrom(stored, 0, toRemove).kept) + toAdd &&
      UniqueLabels(r)
  {
    var w := SweepFrom(stored, 0, toRemove);
    SweepFacts(stored, toRemove);
    AddedFacts(w.kept, translated, now);
    if toAdd == {} {
      assert w.kept + [] == w.kept;
    } else {
      SessionNamesConcat(w.kept, StartSessions(Unstored(translated, w.kept), now));
    }
  }

  /**
   * A change of eligible names for a user with stored sessions: sessions not
   * named in to_remove keep their start; a session is closed only if named in
   * to_remove and then exactly once; new sessions start now, only for names
   * of to_add, and never duplicate a kept label; no other user changes.
   */
  lemma StepReconciles(t: Tracking, banned: set<string>, id: UserId, isBot: bool,
                       before: seq<Activity>, after: seq<Activity>, now: int, addOrder: seq<string>)
    requires !isBot && |before| > 0 && |after| > 0
    requires NameSet(Strip(banned, before)) != NameSet(Strip(banned, after))
    requires Lookup(t, id) != [] && UniqueLabels(Lookup(t, id))
    requires Enumerates(addOrder, ToAdd(banned, before, after))
    ensures var r := PresenceStep(t, banned, id, isBot, before, after, now, addOrder);
      var stored := Lookup(t, id);
      var c := CompareByNames(Strip(banned, before), Strip(banned, after));
      id in r.tracking &&
      (forall s :: s in stored && s.name !in c.toRemove ==> s in r.tracking[id]) &&
      (forall s :: s in r.closed ==> s in stored && s.name in c.toRemove) &&
      (forall s :: s in stored ==> (s in r.tracking[id] <==> s !in r.closed)) &&
      (forall s :: s in stored ==> multiset(r.closed)[s] <= 1) &&
      (forall s :: s in r.tracking[id] && s !in stored ==> s.start == now && s.name in c.toAdd) &&
      SessionNames(r.tracking[id]) == SessionNames(SweepFrom(stored, 0, c.toRemove).kept) + c.toAdd &&
      UniqueLabels(r.tracking[id]) &&
      (forall u :: u in t && u != id ==> u in r.tracking && r.tracking[u] == t[u])
  {
    var ea := Strip(banned, after);
    var c := CompareByNames(Strip(banned, before), ea);
    var stored := Lookup(t, id);
    ReconcileStepIs(t, banned, id, isBot, before, after, now, addOrder);
    StripProperties(banned, after);
    TranslateEnumeration(addOrder, c.toAdd, ea);
    ReconciledFacts(stored, c.toRemove, c.toAdd, Translate(addOrder, ea), now);
  }

  /** The step of an event that reconciles stored sessions. */
  lemma ReconcileStepIs(t: Tracking, banned: set<string>, id: UserId, isBot: bool,
                        before: seq<Activity>, after: seq<Activity>, now: int, addOrder: seq<string>)
    requires !isBot && |before| > 0 && |after| > 0
    requires NameSet(Strip(banned, before)) != NameSet(Strip(banned, after))
    requires Lookup(t, id) != []
    ensures var ea := Strip(banned, after);
      var c := CompareByNames(Strip(banned, before), ea);
      var stored := Lookup(t, id);
      PresenceStep(t, banned, id, isBot, before, after, now, addOrder) ==
        Step(t[id := Reconciled(stored, c.toRemove, c.toAdd, Translate(addOrder, ea), now)], SweepFrom(stored, 0, c.toRemove).closed)
  {
  }

  /**
   * A change of eligible names for a user with nothing stored: nothing is
   * closed, and the user's entry becomes one session per name of to_add (none
   * when to_add is empty), each starting now; no other user changes.
   */
  lemma StepStartsUntracked(t: Tracking, banned: set<string>, id: UserId, isBot: bool,
                            before: seq<Activity>, after: seq<Activity>, now: int, addOrder: seq<string>)
    requires !isBot && |before| > 0 && |after| > 0
    requires NameSet(Strip(banned, before)) != NameSet(Strip(banned, after))
    requires Lookup(t, id) == []
    requires Enumerates(addOrder, ToAdd(banned, before, after))
    ensures var r := PresenceStep(t, banned, id, isBot, before, after, now, addOrder);
      r.closed == [] &&
      id in r.tracking &&
      SessionNames(r.tracking[id]) == ToAdd(banned, before, after) &&
      UniqueLabels(r.tracking[id]) &&
      (forall s :: s in r.tracking[id] ==> s.start == now) &&
      (forall u :: u in t && u != id ==> u in r.tracking && r.tracking[u] == t[u])
  {
    var ea := Strip(banned, after);
    var c := CompareByNames(Strip(banned, before), ea);
    StripProperties(banned, after);
    var entry := NewEntry([], c.toRemove, c.toAdd, Translate(addOrder, ea), now);
    OpenedEntry(addOrder, c.toRemove, c.toAdd, ea, now);
    assert PresenceStep(t, banned, id, isBot, before, after, now, addOrder) == Step(t[id := entry], []);
  }

  /** The entry for a user with nothing stored: a session per name to add. */
  lemma OpenedEntry(addOrder: seq<string>, toRemove: set<string>, toAdd: set<string>, ea: seq<Activity>, now: int)
    requires Enumerates(addOrder, toAdd) && toAdd <= NameSet(ea) && UniqueNames(ea)
    ensures var entry := NewEntry([], toRemove, toAdd, Translate(addOrder, ea), now);
      SessionNames(entry) == toAdd && UniqueLabels(entry) && forall s :: s in entry ==> s.start == now
  {
    TranslateEnumeration(addOrder, toAdd, ea);
    StartSessionsFacts(Translate(addOrder, ea), now);
  }

  /** In a list with distinct labels every session occurs once. */
  lemma CountOfUnique(s: seq<ActivityData>, i: int)
    requires 0 <= i < |s| && UniqueLabels(s)
    ensures multiset(s)[s[i]] == 1
  {
    assert s == s[..i] + [s[i]] + s[i + 1..];
    forall j | 0 <= j < |s| && j != i ensures s[j] != s[i] {
      if j < i { assert s[j].name != s[i].name; } else { assert s[i].name != s[j].name; }
    }
    assert s[i] !in s[..i] by {
      forall j | 0 <= j < i ensures s[..i][j] != s[i] { assert s[..i][j] == s[j]; }
    }
    var post := s[i + 1..];
    assert s[i] !in post by {
      forall j | 0 <= j < |post| ensures post[j] != s[i] { assert post[j] == s[i + 1 + j]; }
    }
  }

  // ---------------------------------------------------------------------------
  // The invariant of tracking_list

  /**
   * Every tracked user has sessions with distinct labels, of names that are
   * not banned, started no later than `now`.
   */
  ghost predicate Consistent(t: Tracking, banned: set<string>, now: int)
  {
    forall u :: u in t ==> UniqueLabels(t[u]) && forall s :: s in t[u] ==> s.name !in banned && s.start <= now
  }

  lemma NewSessionsConsistent(banned: set<string>, acts: seq<Activity>, now: int)
    requires UniqueNames(acts) && forall a :: a in acts ==> a.name !in banned
    ensures UniqueLabels(StartSessions(acts, now))
    ensures forall s :: s in StartSessions(acts, now) ==> s.name !in banned && s.start == now
  {
    StartSessionsFacts(acts, now);
    forall s | s in StartSessions(acts, now) ensures s.name !in banned {
      assert s.name in SessionNames(StartSessions(acts, now));
      var a :| a in acts && a.name == s.name;
    }
  }

  lemma ConsistentUpdate(t: Tracking, banned: set<string>, now: int, id: UserId, list: seq<ActivityData>)
    requires Consistent(t, banned, now) && UniqueLabels(list)
    requires forall s :: s in list ==> s.name !in banned && s.start <= now
    ensures Consistent(t[id := list], banned, now)
  {
  }

  /** The sessions a reconciling event leaves for a user, when consistent before. */
  lemma ReconciledConsistent(stored: seq<ActivityData>, banned: set<string>, now: int,
                             ea: seq<Activity>, toRemove: set<string>, addOrder: seq<string>, toAdd: set<string>)
    requires UniqueLabels(stored) && forall s :: s in stored ==> s.name !in banned && s.start <= now
    requires UniqueNames(ea) && (forall a :: a in ea ==> IsEligible(banned, a))
    requires Enumerates(addOrder, toAdd) && toAdd <= NameSet(ea) && toRemove !! toAdd
    ensures var r := Reconciled(stored, toRemove, toAdd, Translate(addOrder, ea), now);
      UniqueLabels(r) && forall s :: s in r ==> s.name !in banned && s.start <= now
  {
    TranslateEnumeration(addOrder, toAdd, ea);
    var translated := Translate(addOrder, ea);
    ReconciledFacts(stored, toRemove, toAdd, translated, now);
    var r := Reconciled(stored, toRemove, toAdd, translated, now);
    forall s | s in r ensures s.name !in banned && s.start <= now {
      if s !in stored {
        var a :| a in translated && a.name == s.name;
      }
    }
  }

  /** The sessions an event opens for a user with none stored. */
  lemma OpenedConsistent(banned: set<string>, now: int, ea: seq<Activity>, addOrder: seq<string>, toAdd: set<string>)
    requires UniqueNames(ea) && (forall a :: a in ea ==> IsEligible(banned, a))
    requires Enumerates(addOrder, toAdd) && toAdd <= NameSet(ea)
    ensures var r := StartSessions(Translate(addOrder, ea), now);
      UniqueLabels(r) && forall s :: s in r ==> s.name !in banned && s.start <= now
  {
    TranslateEnumeration(addOrder, toAdd, ea);
    NewSessionsConsistent(banned, Translate(addOrder, ea), now);
  }

  lemma OpeningConsistent(t: Tracking, banned: set<string>, id: UserId,
                          before: seq<Activity>, after: seq<Activity>, now: int, addOrder: seq<string>)
    requires Consistent(t, banned, now) && |before| == 0 && |after| > 0
    ensures Consistent(PresenceStep(t, banned, id, false, before, after, now, addOrder).tracking, banned, now)
  {
    var ea := Strip(banned, after);
    StripProperties(banned, after);
    if |ea| > 0 {
      NewSessionsConsistent(banned, ea, now);
      ConsistentUpdate(t, banned, now, id, StartSessions(ea, now));
    }
  }

  lemma ReconcilingConsistent(t: Tracking, banned: set<string>, id: UserId,
                              before: seq<Activity>, after: seq<Activity>, now: int, addOrder: seq<string>)
    requires Consistent(t, banned, now) && Enumerates(addOrder, ToAdd(banned, before, after))
    requires |before| > 0 && |after| > 0
    ensures Consistent(PresenceStep(t, banned, id, false, before, after, now, addOrder).tracking, banned, now)
    ensures forall s :: s in PresenceStep(t, banned, id, false, before, after, now, addOrder).closed ==> s in Lookup(t, id)
  {
    var ea := Strip(banned, after);
    StripProperties(banned, after);
    var eb := Strip(banned, before);
    var c := CompareByNames(eb, ea);
    var stored := Lookup(t, id);
    if |eb| + |ea| >= 1 && !c.same {
      var list;
      if |stored| == 0 {
        if c.toAdd != {} {
          OpenedConsistent(banned, now, ea, addOrder, c.toAdd);
          list := StartSessions(Translate(addOrder, ea), now);
        } else {
          list := [];
        }
      } else {
        ReconciledConsistent(stored, banned, now, ea, c.toRemove, addOrder, c.toAdd);
        list := Reconciled(stored, c.toRemove, c.toAdd, Translate(addOrder, ea), now);
        SweepFacts(stored, c.toRemove);
      }
      ConsistentUpdate(t, banned, now, id, list);
      assert PresenceStep(t, banned, id, false, before, after, now, addOrder).tracking == t[id := list];
    }
  }

  /**
   * Every event keeps tracking_list consistent, and only ever hands stored
   * sessions of the event's user to the store.
   */
  lemma StepPreservesConsistency(t: Tracking, banned: set<string>, id: UserId, isBot: bool,
                                 before: seq<Activity>, after: seq<Activity>, now: int, addOrder: seq<string>)
    requires Consistent(t, banned, now) && Enumerates(addOrder, ToAdd(banned, before, after))
    ensures Consistent(PresenceStep(t, banned, id, isBot, before, after, now, addOrder).tracking, banned, now)
    ensures forall s :: s in PresenceStep(t, banned, id, isBot, before, after, now, addOrder).closed ==> s in Lookup(t, id)
  {
    if (|before| == 0 && |after| == 0) || isBot {
    } else if |before| == 0 {
      OpeningConsistent(t, banned, id, before, after, now, addOrder);
    } else if |after| == 0 {
    } else {
      ReconcilingConsistent(t, banned, id, before, after, now, addOrder);
    }
  }

  // ---------------------------------------------------------------------------
  // The handler

  /**
   * Some order enumerates any finite set. The handler's returned iteration
   * order is ghost; this lemma supplies it on the paths where the source never
   * iterates to_add, while `IterationOrder` below is the iteration itself on
   * the paths where it does.
   */
  lemma {:induction false} SomeOrder(names: set<string>) returns (order: seq<string>)
    ensures Enumerates(order, names)
    decreases names
  {
    if names == {} {
      order := [];
    } else {
      var x :| x in names;
      var rest := SomeOrder(names - {x});
      assert multiset(names) == multiset(names - {x}) + multiset{x};
      order := [x] + rest;
    }
  }

  /**
   * The order in which Python iterates a set of names: any order, each name
   * once. Used where main.py:185-187 and 199 actually iterate to_add.
   */
  method IterationOrder(names: set<string>) returns (order: seq<string>)
    ensures Enumerates(order, names)
  {
    order := [];
    var rest := names;
    while rest != {}
      invariant multiset(order) + multiset(rest) == multiset(names)
      decreases rest
    {
      var x :| x in rest;
      assert multiset(rest) == multiset(rest - {x}) + multiset{x};
      order := order + [x];
      rest := rest - {x};
    }
  }

  /** Hands every session of `sessions` to the store, in order. */
  method StoreAll(games: GameStore, id: UserId, sessions: seq<ActivityData>, now: int)
    requires games.Valid()
    modifies games
    ensures games.Valid()
    ensures games.records == StoredAll(old(games.records), id, sessions, now)
  {
    for k := 0 to |sessions|
      invariant games.Valid()
      invariant games.records == StoredAll(old(games.records), id, sessions[..k], now)
    {
      assert sessions[..k + 1][..k] == sessions[..k];
      games.StoreActivityData(id, sessions[k], now);
    }
    assert sessions[..|sessions|] == sessions;
  }

  /**
   * The removal loop of the handler: walks `list` while removing from it
   * every visited session named in `toRemove` and storing it.
   */
  method CloseRemoved(games: GameStore, id: UserId, list: seq<ActivityData>, toRemove: set<string>, now: int)
    returns (kept: seq<ActivityData>)
    requires games.Valid()
    modifies games
    ensures games.Valid()
    ensures kept == SweepFrom(list, 0, toRemove).kept
    ensures games.records == StoredAll(old(games.records), id, SweepFrom(list, 0, toRemove).closed, now)
  {
    kept := list;
    ghost var closed: seq<ActivityData> := [];
    var i := 0;
    while i < |kept|
      invariant i <= |kept| + 1
      invariant SweepFrom(list, 0, toRemove) ==
        Sweep(SweepFrom(kept, i, toRemove).kept, closed + SweepFrom(kept, i, toRemove).closed)
      invariant games.Valid()
      invariant games.records == StoredAll(old(games.records), id, closed, now)
      decreases |kept| + 1 - i
    {
      var value := kept[i];
      i := i + 1;
      if value.name in toRemove {
        kept := kept[..i - 1] + kept[i..];
        assert closed + [value] + SweepFrom(kept, i, toRemove).closed ==
          closed + ([value] + SweepFrom(kept, i, toRemove).closed);
        assert (closed + [value])[..|closed|] == closed;
        closed := closed + [value];
        games.StoreActivityData(id, value, now);
      }
    }
    assert closed + [] == closed;
  }

  /** The bot's tracking_list and its presence handler. */
  class Tracker {
    var tracking: Tracking

    constructor ()
      ensures tracking == map[]
    {
      tracking := map[];
    }

    /**
     * on_presence_update for user `id` at time `now`. The returned order is
     * the one in which to_add was iterated; every closed session is passed
     * to `games`, in the order the handler closes them.
     */
    method OnPresenceUpdate(banned: set<string>, id: UserId, isBot: bool,
                            before: seq<Activity>, after: seq<Activity>, now: int, games: GameStore)
      returns (ghost addOrder: seq<string>)
      requires games.Valid()
      modifies this, games
      ensures games.Valid()
      ensures Enumerates(addOrder, ToAdd(banned, before, after))
      ensures tracking == PresenceStep(old(tracking), banned, id, isBot, before, after, now, addOrder).tracking
      ensures games.records ==
        StoredAll(old(games.records), id, PresenceStep(old(tracking), banned, id, isBot, before, after, now, addOrder).closed, now)
    {
      if (|before| == 0 && |after| == 0) || isBot {
        addOrder := SomeOrder(ToAdd(banned, before, after));
        return;
      }
      if |before| == 0 {
        addOrder := SomeOrder(ToAdd(banned, before, after));
        var eligible := StripIneligible(banned, after);
        if |eligible| > 0 {
          tracking := tracking[id := StartSessions(eligible, now)];
        }
      } else if |after| == 0 {
        addOrder := SomeOrder(ToAdd(banned, before, after));
        assert PresenceStep(old(tracking), banned, id, isBot, before, after, now, addOrder) == CloseStep(old(tracking), id);
        CloseAll(id, now, games);
      } else {
        var beforeEligible := StripIneligible(banned, before);
        var afterEligible := StripIneligible(banned, after);
        addOrder := Reconcile(id, beforeEligible, afterEligible, now, games);
        assert PresenceStep(old(tracking), banned, id, isBot, before, after, now, addOrder) ==
          ReconcileStep(old(tracking), id, beforeEligible, afterEligible, now, addOrder);
      }
    }

    /** The branch for an empty after snapshot. */
    method CloseAll(id: UserId, now: int, games: GameStore)
      requires games.Valid()
      modifies this, games
      ensures games.Valid()
      ensures tracking == CloseStep(old(tracking), id).tracking
      ensures games.records == StoredAll(old(games.records), id, CloseStep(old(tracking), id).closed, now)
    {
      var stored := Lookup(tracking, id);
      if |stored| == 0 {
        return;
      }
      tracking := tracking - {id};
      StoreAll(games, id, stored, now);
    }

    /** The branch for two non-empty snapshots, given their eligible activities. */
    method Reconcile(id: UserId, beforeEligible: seq<Activity>, afterEligible: seq<Activity>, now: int, games: GameStore)
      returns (ghost addOrder: seq<string>)
      requires games.Valid()
      modifies this, games
      ensures games.Valid()
      ensures Enumerates(addOrder, CompareByNames(beforeEligible, afterEligible).toAdd)
      ensures tracking == ReconcileStep(old(tracking), id, beforeEligible, afterEligible, now, addOrder).tracking
      ensures games.records ==
        StoredAll(old(games.records), id, ReconcileStep(old(tracking), id, beforeEligible, afterEligible, now, addOrder).closed, now)
    {
      var c := CompareByNames(beforeEligible, afterEligible);
      if |beforeEligible| + |afterEligible| < 1 || c.same {
        addOrder := SomeOrder(c.toAdd);
        return;
      }
      var entry;
      entry, addOrder := UpdateEntry(games, id, Lookup(tracking, id), c.toRemove, c.toAdd, afterEligible, now);
      tracking := tracking[id := entry];
    }
  }

  /**
   * The work of the reconciling branch on one user's stored sessions: close
   * and store the removed ones, then open sessions for the added names.
   */
  method UpdateEntry(games: GameStore, id: UserId, stored: seq<ActivityData>, toRemove: set<string>, toAdd: set<string>,
                     afterEligible: seq<Activity>, now: int)
    returns (entry: seq<ActivityData>, ghost order: seq<string>)
    requires games.Valid()
    modifies games
    ensures games.Valid()
    ensures Enumerates(order, toAdd)
    ensures entry == NewEntry(stored, toRemove, toAdd, Translate(order, afterEligible), now)
    ensures games.records == StoredAll(old(games.records), id, ClosedBy(stored, toRemove), now)
  {
    order := SomeOrder(toAdd);
    if |stored| == 0 {
      entry := [];
      if toAdd != {} {
        var names := IterationOrder(toAdd);
        order := names;
        var translated := TranslateNames(names, afterEligible);
        entry := StartSessions(translated, now);
      }
    } else {
      entry := CloseRemoved(games, id, stored, toRemove, now);
      if toAdd != {} {
        var names := IterationOrder(toAdd);
        order := names;
        var translated := TranslateNames(names, afterEligible);
        entry := entry + StartSessions(Unstored(translated, entry), now);
      } else {
        assert entry + [] == entry;
      }
    }
  }
}
