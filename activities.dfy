/**
 * The activity helpers of main.py: which reported activities are trackable,
 * de-duplication by name, translation of names back to activities and the
 * name-set comparison that drives session reconciliation.
 */
module Activities {

  import opened Wrappers

  /** discord's ActivityType enumeration. */
  datatype ActivityType = Unknown | Playing | Streaming | Listening | Watching | Custom | Competing

  /**
   * An activity as reported in a member's presence. `kind` is None for an
   * activity object that has no `type` attribute at all.
   */
  datatype Activity = Activity(name: string, kind: Option<ActivityType>)

  /** One open tracking session of a user: the activity name and when it started. */
  datatype ActivityData = ActivityData(name: string, start: int)

  function NameSet(s: seq<Activity>): set<string>
  {
    set a | a in s :: a.name
  }

  /** No two activities of `s` share a name. */
  ghost predicate UniqueNames(s: seq<Activity>)
  {
    forall i, j :: 0 <= i < j < |s| ==> s[i].name != s[j].name
  }

  lemma NameSetConcat(a: seq<Activity>, b: seq<Activity>)
    ensures NameSet(a + b) == NameSet(a) + NameSet(b)
  {
    forall n | n in NameSet(a + b) ensures n in NameSet(a) + NameSet(b) {
      var x :| x in a + b && x.name == n;
    }
    forall n | n in NameSet(a) + NameSet(b) ensures n in NameSet(a + b) {
      if n in NameSet(a) {
        var x :| x in a && x.name == n;
        assert x in a + b;
      } else {
        var x :| x in b && x.name == n;
        assert x in a + b;
      }
    }
  }

  lemma NameSetLast(s: seq<Activity>)
    requires s != []
    ensures NameSet(s) == NameSet(s[..|s| - 1]) + {s[|s| - 1].name}
  {
    assert s == s[..|s| - 1] + [s[|s| - 1]];
    NameSetConcat(s[..|s| - 1], [s[|s| - 1]]);
  }

  lemma NameNotInNameSet(s: seq<Activity>, n: string)
    requires forall i :: 0 <= i < |s| ==> s[i].name != n
    ensures n !in NameSet(s)
  {
    forall x | x in s ensures x.name != n {
      var i :| 0 <= i < |s| && s[i] == x;
    }
  }

  lemma NameInNameSet(s: seq<Activity>, i: int)
    requires 0 <= i < |s|
    ensures s[i].name in NameSet(s)
  {
    assert s[i] in s;
  }

  // ---------------------------------------------------------------------------
  // activity_eligibility_check

  /**
   * An activity is trackable unless its name is banned or it carries a type
   * other than playing or streaming; an activity without a type is trackable.
   */
  function IsEligible(banned: set<string>, a: Activity): (ok: bool)
    ensures a.name in banned ==> !ok
    ensures a.kind.Some? && a.kind.value != Playing && a.kind.value != Streaming ==> !ok
    ensures a.name !in banned && a.kind.None? ==> ok
    ensures a.name !in banned && a.kind.Some? && (a.kind.value == Playing || a.kind.value == Streaming) ==> ok
  {
    if a.name in banned then false
    else if a.kind.Some? && a.kind.value != Streaming && a.kind.value != Playing then false
    else true
  }

  // ---------------------------------------------------------------------------
  // remove_activity_list_duplicates

  /** The activities of `s` whose name did not occur earlier in `s`, in order. */
  function Dedup(s: seq<Activity>): seq<Activity>
  {
    if s == [] then []
    else
      var p := s[..|s| - 1];
      Dedup(p) + (if s[|s| - 1].name in NameSet(p) then [] else [s[|s| - 1]])
  }

  ghost predicate IsFirstOccurrence(s: seq<Activity>, i: int)
    requires 0 <= i < |s|
  {
    forall j :: 0 <= j < i ==> s[j].name != s[i].name
  }

  /** The positions of `s` at which a name occurs for the first time. */
  ghost function FirstOccurrences(s: seq<Activity>): seq<nat>
  {
    if s == [] then []
    else
      var p := s[..|s| - 1];
      FirstOccurrences(p) + (if s[|s| - 1].name in NameSet(p) then [] else [|s| - 1])
  }

  /** Every name of the input appears in the output, and no other name does. */
  lemma {:induction false} DedupNameSet(s: seq<Activity>)
    ensures NameSet(Dedup(s)) == NameSet(s)
  {
    if s != [] {
      var p := s[..|s| - 1];
      DedupNameSet(p);
      NameSetLast(s);
      NameSetConcat(Dedup(p), if s[|s| - 1].name in NameSet(p) then [] else [s[|s| - 1]]);
    }
  }

  /** The output names are pairwise distinct. */
  lemma {:induction false} DedupUnique(s: seq<Activity>)
    ensures UniqueNames(Dedup(s))
  {
    if s != [] {
      var p := s[..|s| - 1];
      DedupUnique(p);
      DedupNameSet(p);
      var d := Dedup(p);
      if s[|s| - 1].name !in NameSet(p) {
        forall i | 0 <= i < |d| ensures d[i].name != s[|s| - 1].name {
          assert d[i] in d;
        }
      }
    }
  }

  /** Dedup(s) picks exactly the positions FirstOccurrences(s) of `s`. */
  lemma {:induction false} DedupAtFirstOccurrences(s: seq<Activity>)
    ensures |FirstOccurrences(s)| == |Dedup(s)|
    ensures forall k :: 0 <= k < |Dedup(s)| ==>
      FirstOccurrences(s)[k] < |s| && Dedup(s)[k] == s[FirstOccurrences(s)[k]]
  {
    if s != [] {
      var n := |s| - 1;
      var p := s[..n];
      DedupAtFirstOccurrences(p);
      forall k | 0 <= k < |FirstOccurrences(p)| ensures s[FirstOccurrences(p)[k]] == p[FirstOccurrences(p)[k]] {
      }
    }
  }

  /** The positions are increasing and inside `s`. */
  lemma {:induction false} FirstOccurrencesIncreasing(s: seq<Activity>)
    ensures forall k :: 0 <= k < |FirstOccurrences(s)| ==> FirstOccurrences(s)[k] < |s|
    ensures forall k, l :: 0 <= k < l < |FirstOccurrences(s)| ==> FirstOccurrences(s)[k] < FirstOccurrences(s)[l]
  {
    if s != [] {
      FirstOccurrencesIncreasing(s[..|s| - 1]);
    }
  }

  /** A position is picked exactly when its name does not occur before it. */
  lemma {:induction false} FirstOccurrencesExact(s: seq<Activity>)
    ensures forall i :: 0 <= i < |s| ==> (i in FirstOccurrences(s) <==> IsFirstOccurrence(s, i))
  {
    if s != [] {
      var n := |s| - 1;
      var p := s[..n];
      FirstOccurrencesExact(p);
      FirstOccurrencesIncreasing(p);
      var fp := FirstOccurrences(p);
      var tail: seq<nat> := if s[n].name in NameSet(p) then [] else [n];
      assert FirstOccurrences(s) == fp + tail;
      forall i | 0 <= i < n ensures i in FirstOccurrences(s) <==> IsFirstOccurrence(s, i) {
        assert i in fp + tail <==> i in fp;
        PrefixFirstOccurrence(s, n, i);
      }
      assert n !in fp;
      if s[n].name in NameSet(p) {
        var x :| x in p && x.name == s[n].name;
        var j :| 0 <= j < n && p[j] == x;
        assert s[j].name == s[n].name;
      } else {
        forall j | 0 <= j < n ensures s[j].name != s[n].name {
          NameInNameSet(p, j);
        }
      }
    }
  }

  /** Whether a position is a first occurrence depends only on the prefix up to it. */
  lemma PrefixFirstOccurrence(s: seq<Activity>, n: int, i: int)
    requires 0 <= i < n <= |s|
    ensures IsFirstOccurrence(s, i) <==> IsFirstOccurrence(s[..n], i)
  {
    assert forall j :: 0 <= j <= i ==> s[..n][j] == s[j];
  }

  /**
   * The output is the subsequence of the input made of the first occurrence
   * of each name: it picks, in increasing order, exactly the positions that
   * are first occurrences.
   */
  lemma DedupKeepsFirstOccurrences(s: seq<Activity>)
    ensures |FirstOccurrences(s)| == |Dedup(s)|
    ensures forall k :: 0 <= k < |Dedup(s)| ==>
      FirstOccurrences(s)[k] < |s| && Dedup(s)[k] == s[FirstOccurrences(s)[k]]
    ensures forall k, l :: 0 <= k < l < |Dedup(s)| ==> FirstOccurrences(s)[k] < FirstOccurrences(s)[l]
    ensures forall i :: 0 <= i < |s| ==> (i in FirstOccurrences(s) <==> IsFirstOccurrence(s, i))
  {
    DedupAtFirstOccurrences(s);
    FirstOccurrencesIncreasing(s);
    FirstOccurrencesExact(s);
  }

  method RemoveDuplicates(activities: seq<Activity>) returns (result: seq<Activity>)
    ensures result == Dedup(activities)
    ensures UniqueNames(result) && NameSet(result) == NameSet(activities)
  {
    var names: seq<string> := [];
    result := [];
    for i := 0 to |activities|
      invariant result == Dedup(activities[..i])
      invariant forall n :: n in names <==> n in NameSet(activities[..i])
    {
      var act := activities[i];
      assert activities[..i + 1][..i] == activities[..i];
      NameSetLast(activities[..i + 1]);
      if act.name !in names {
        result := result + [act];
        names := names + [act.name];
      }
    }
    assert activities[..|activities|] == activities;
    DedupUnique(activities);
    DedupNameSet(activities);
  }

  // ---------------------------------------------------------------------------
  // strip_ineligible_activities

  /** The eligible activities of `s`, in order. */
  function KeepEligible(banned: set<string>, s: seq<Activity>): seq<Activity>
  {
    if s == [] then []
    else
      KeepEligible(banned, s[..|s| - 1]) + (if IsEligible(banned, s[|s| - 1]) then [s[|s| - 1]] else [])
  }

  /** What strip_ineligible_activities returns: de-duplicate first, then filter. */
  function Strip(banned: set<string>, s: seq<Activity>): seq<Activity>
  {
    KeepEligible(banned, Dedup(s))
  }

  lemma {:induction false} KeepEligibleMembers(banned: set<string>, s: seq<Activity>)
    ensures forall x :: x in KeepEligible(banned, s) <==> x in s && IsEligible(banned, x)
  {
    if s != [] {
      KeepEligibleMembers(banned, s[..|s| - 1]);
      assert s == s[..|s| - 1] + [s[|s| - 1]];
    }
  }

  /** Filtering keeps the names distinct. */
  lemma {:induction false} KeepEligibleUnique(banned: set<string>, s: seq<Activity>)
    requires UniqueNames(s)
    ensures UniqueNames(KeepEligible(banned, s))
  {
    if s != [] {
      var p := s[..|s| - 1];
      KeepEligibleUnique(banned, p);
      KeepEligibleMembers(banned, p);
      var k := KeepEligible(banned, p);
      forall i | 0 <= i < |k| ensures k[i].name != s[|s| - 1].name {
        assert k[i] in k;
        var j :| 0 <= j < |p| && p[j] == k[i];
      }
    }
  }

  /** A list whose elements are all eligible is left as it is. */
  lemma {:induction false} KeepEligibleOfEligible(banned: set<string>, s: seq<Activity>)
    requires forall x :: x in s ==> IsEligible(banned, x)
    ensures KeepEligible(banned, s) == s
  {
    if s != [] {
      var p := s[..|s| - 1];
      assert s == p + [s[|s| - 1]];
      assert IsEligible(banned, s[|s| - 1]);
      assert forall x :: x in p ==> x in s;
      KeepEligibleOfEligible(banned, p);
    }
  }

  lemma UniquePrefix(s: seq<Activity>, k: nat)
    requires k <= |s| && UniqueNames(s)
    ensures UniqueNames(s[..k])
  {
    var p := s[..k];
    forall i, j | 0 <= i < j < |p| ensures p[i].name != p[j].name {
      assert p[i] == s[i] && p[j] == s[j];
    }
  }

  lemma LastNameIsNew(s: seq<Activity>)
    requires s != [] && UniqueNames(s)
    ensures s[|s| - 1].name !in NameSet(s[..|s| - 1])
  {
    var n := |s| - 1;
    var p := s[..n];
    forall i | 0 <= i < |p| ensures p[i].name != s[n].name {
      assert p[i] == s[i];
    }
    NameNotInNameSet(p, s[n].name);
  }

  /** A list whose names are already distinct is left as it is by Dedup. */
  lemma {:induction false} DedupOfUnique(s: seq<Activity>)
    requires UniqueNames(s)
    ensures Dedup(s) == s
  {
    if s != [] {
      var n := |s| - 1;
      var p := s[..n];
      UniquePrefix(s, n);
      DedupOfUnique(p);
      LastNameIsNew(s);
      DedupKeepsNewLast(p, s[n]);
      SplitLast(s);
    }
  }

  /** A non-empty list is its prefix followed by its last element. */
  lemma SplitLast(s: seq<Activity>)
    requires s != []
    ensures s == s[..|s| - 1] + [s[|s| - 1]]
  {
  }

  /** Appending an element with a new name to a duplicate-free list keeps Dedup the identity. */
  lemma DedupKeepsNewLast(p: seq<Activity>, x: Activity)
    requires Dedup(p) == p && x.name !in NameSet(p)
    ensures Dedup(p + [x]) == p + [x]
  {
    assert (p + [x])[..|p|] == p;
  }

  /** Every element of the result is eligible; the names are distinct; membership is exact. */
  lemma StripProperties(banned: set<string>, s: seq<Activity>)
    ensures forall x :: x in Strip(banned, s) ==> IsEligible(banned, x)
    ensures UniqueNames(Strip(banned, s))
    ensures forall x :: x in Strip(banned, s) <==> x in Dedup(s) && IsEligible(banned, x)
  {
    KeepEligibleMembers(banned, Dedup(s));
    DedupUnique(s);
    KeepEligibleUnique(banned, Dedup(s));
  }

  /** Stripping twice is stripping once. */
  lemma StripIdempotent(banned: set<string>, s: seq<Activity>)
    ensures Strip(banned, Strip(banned, s)) == Strip(banned, s)
  {
    var t := Strip(banned, s);
    StripProperties(banned, s);
    DedupOfUnique(t);
    KeepEligibleOfEligible(banned, t);
  }

  method StripIneligible(banned: set<string>, activities: seq<Activity>) returns (result: seq<Activity>)
    ensures result == Strip(banned, activities)
    ensures UniqueNames(result) && forall x :: x in result ==> IsEligible(banned, x)
  {
    result := [];
    var unique := RemoveDuplicates(activities);
    for i := 0 to |unique|
      invariant result == KeepEligible(banned, unique[..i])
    {
      assert unique[..i + 1][..i] == unique[..i];
      if !IsEligible(banned, unique[i]) {
        continue;
      }
      result := result + [unique[i]];
    }
    assert unique[..|unique|] == unique;
    StripProperties(banned, activities);
  }

  // ---------------------------------------------------------------------------
  // translate_activity_names_list_to_activity_list

  /** The activities of `acts` named `name`, in order. */
  function Matching(name: string, acts: seq<Activity>): seq<Activity>
  {
    if acts == [] then []
    else Matching(name, acts[..|acts| - 1]) + (if acts[|acts| - 1].name == name then [acts[|acts| - 1]] else [])
  }

  /** One group per name of `names`, in that order; each group in input order. */
  function Translate(names: seq<string>, acts: seq<Activity>): seq<Activity>
  {
    if names == [] then []
    else Translate(names[..|names| - 1], acts) + Matching(names[|names| - 1], acts)
  }

  lemma {:induction false} MatchingMembers(name: string, acts: seq<Activity>)
    ensures forall x :: x in Matching(name, acts) <==> x in acts && x.name == name
  {
    if acts != [] {
      MatchingMembers(name, acts[..|acts| - 1]);
      assert acts == acts[..|acts| - 1] + [acts[|acts| - 1]];
    }
  }

  /** With distinct names, the group of a name that occurs is that one activity. */
  lemma {:induction false} MatchingOfUnique(name: string, acts: seq<Activity>)
    requires UniqueNames(acts)
    ensures name in NameSet(acts) ==> |Matching(name, acts)| == 1
    ensures name !in NameSet(acts) ==> Matching(name, acts) == []
  {
    if acts != [] {
      var p := acts[..|acts| - 1];
      MatchingOfUnique(name, p);
      NameSetLast(acts);
      forall x | x in p ensures x.name != acts[|acts| - 1].name {
        var j :| 0 <= j < |p| && p[j] == x;
        assert acts[j] == x;
      }
    }
  }

  /** An activity is in the result exactly when it is in `acts` and its name is listed. */
  lemma {:induction false} TranslateMembers(names: seq<string>, acts: seq<Activity>)
    ensures forall x :: x in Translate(names, acts) <==> x in acts && x.name in names
  {
    if names != [] {
      var p := names[..|names| - 1];
      TranslateMembers(p, acts);
      MatchingMembers(names[|names| - 1], acts);
      assert names == p + [names[|names| - 1]];
    }
  }

  /** Distinct names translated against distinct-named activities stay distinct. */
  lemma {:induction false} TranslateUnique(names: seq<string>, acts: seq<Activity>)
    requires forall i, j :: 0 <= i < j < |names| ==> names[i] != names[j]
    requires UniqueNames(acts)
    ensures UniqueNames(Translate(names, acts))
  {
    if names != [] {
      var p := names[..|names| - 1];
      var last := names[|names| - 1];
      TranslateUnique(p, acts);
      TranslateMembers(p, acts);
      MatchingMembers(last, acts);
      MatchingOfUnique(last, acts);
      var a, b := Translate(p, acts), Matching(last, acts);
      forall i, j | 0 <= i < |a| && 0 <= j < |b| ensures a[i].name != b[j].name {
        assert a[i] in a && b[j] in b;
        assert a[i].name in p;
      }
      assert |b| <= 1;
    }
  }

  method TranslateNames(nameList: seq<string>, activities: seq<Activity>) returns (result: seq<Activity>)
    ensures result == Translate(nameList, activities)
  {
    result := [];
    for i := 0 to |nameList|
      invariant result == Translate(nameList[..i], activities)
    {
      assert nameList[..i + 1][..i] == nameList[..i];
      for j := 0 to |activities|
        invariant result == Translate(nameList[..i], activities) + Matching(nameList[i], activities[..j])
      {
        assert activities[..j + 1][..j] == activities[..j];
        if nameList[i] == activities[j].name {
          result := result + [activities[j]];
        }
      }
      assert activities[..|activities|] == activities;
    }
    assert nameList[..|nameList|] == nameList;
  }

  // ---------------------------------------------------------------------------
  // compare_activity_lists_by_names

  datatype Comparison = Comparison(same: bool, toRemove: set<string>, toAdd: set<string>)

  /**
   * Compares two activity lists by their name sets: `same` when the sets are
   * equal, and otherwise the names only in the first and only in the second.
   */
  function CompareByNames(x: seq<Activity>, y: seq<Activity>): (c: Comparison)
    ensures c.same <==> NameSet(x) == NameSet(y)
    ensures c.same ==> c.toRemove == {} && c.toAdd == {}
    ensures c.toRemove == NameSet(x) - NameSet(y)
    ensures c.toAdd == NameSet(y) - NameSet(x)
    ensures c.toRemove !! c.toAdd
  {
    var xs := NameSet(x);
    var ys := NameSet(y);
    var diff := (xs - ys) + (ys - xs);
    if |diff| < 1 then
      assert xs == ys by {
        assert diff == {};
        forall n | n in xs ensures n in ys { assert n !in diff; }
        forall n | n in ys ensures n in xs { assert n !in diff; }
      }
      Comparison(true, {}, {})
    else
      assert xs != ys by {
        var n :| n in diff;
      }
      Comparison(false, xs - ys, ys - xs)
  }

  /** Swapping the arguments swaps the two difference sets. */
  lemma CompareSymmetric(x: seq<Activity>, y: seq<Activity>)
    ensures CompareByNames(y, x) ==
      Comparison(CompareByNames(x, y).same, CompareByNames(x, y).toAdd, CompareByNames(x, y).toRemove)
  {
  }

  /** A list compared with itself is the same, with nothing to remove or add. */
  lemma CompareReflexive(x: seq<Activity>)
    ensures CompareByNames(x, x) == Comparison(true, {}, {})
  {
  }
}
