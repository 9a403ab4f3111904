/** The registry tool's list of paths: entries separated by semicolons in one string. */
module PathList {
  import opened OpcUaTypes

  predicate OccursAt(s: string, t: string, i: nat) {
    i + |t| <= |s| && s[i..i + |t|] == t
  }

  ghost predicate Contains(s: string, t: string) {
    exists i :: OccursAt(s, t, i)
  }

  /** The first occurrence at or after `from`. */
  function Find(s: string, t: string, from: nat): (r: Option<nat>)
    ensures r.Some? ==> from <= r.value && OccursAt(s, t, r.value)
    ensures r.Some? ==> forall i :: from <= i < r.value ==> !OccursAt(s, t, i)
    ensures r.None? ==> forall i :: from <= i ==> !OccursAt(s, t, i)
    decreases |s| - from
  {
    if from + |t| > |s| then None
    else if OccursAt(s, t, from) then Some(from)
    else Find(s, t, from + 1)
  }

  /** `std::string::replace(pos, n, "")`: the count is cut off at the end of the string. */
  function Erase(s: string, pos: nat, n: nat): string
    requires pos <= |s|
  {
    if pos + n <= |s| then s[..pos] + s[pos + n..] else s[..pos]
  }

  function StringAdd(value: string, entry: string): string {
    if Find(value, entry, 0).Some? then value
    else if value == "" then entry
    else value + ";" + entry
  }

  function StringRemove(value: string, entry: string): string {
    match Find(value, entry, 0)
    case None => value
    case Some(pos) =>
      if pos == 0 then Erase(value, 0, |entry| + 1) else Erase(value, pos - 1, |entry| + 1)
  }

  /** An occurrence that starts in `v` either lies in `v` or covers the separator. */
  lemma EarlyOccurrence(v: string, tail: string, a: string, i: nat)
    requires i <= |v| && a != "" && OccursAt(v + ";" + tail, a, i)
    ensures OccursAt(v, a, i) || ';' in a
  {
    var w := v + ";" + tail;
    if i + |a| <= |v| {
      assert v[i..i + |a|] == w[i..i + |a|];
    } else {
      assert a[|v| - i] == w[i..i + |a|][|v| - i];
    }
  }

  /** An entry without a separator that is not in `v` occurs in `v;entry` only at the end. */
  lemma AddedEntryIsFound(v: string, a: string)
    requires a != "" && ';' !in a && !Contains(v, a)
    ensures Find(v + ";" + a, a, 0) == Some(|v| + 1)
  {
    FoundAfter(v, a, "");
    assert v + ";" + a + "" == v + ";" + a;
  }

  /** The first occurrence of the entry in the list extended by it. */
  function FirstIn(v: string, a: string): (pos: nat)
    ensures OccursAt(v + ";" + a, a, pos) && pos <= |v| + 1
    ensures forall i :: 0 <= i < pos ==> !OccursAt(v + ";" + a, a, i)
  {
    var w := v + ";" + a;
    assert w[|v| + 1..|v| + 1 + |a|] == a;
    assert OccursAt(w, a, |v| + 1);
    Find(w, a, 0).value
  }

  predicate EndsWith(s: string, t: string) {
    |t| <= |s| && s[|s| - |t|..] == t
  }

  /** The part of the list from one character before the first occurrence on. */
  function AtRisk(v: string, a: string): string {
    var pos := FirstIn(v, a);
    if pos == 0 then v else v[pos - 1..]
  }

  lemma TailIsInEntry(v: string, a: string, k: nat)
    requires |v| + 1 <= k <= |v| + 1 + |a|
    ensures (v + ";" + a)[k..] == a[k - |v| - 1..]
  {}

  /** An occurrence of an entry that is not in the list reaches beyond the list. */
  lemma OccurrenceReachesOut(v: string, a: string, pos: nat)
    requires !Contains(v, a) && OccursAt(v + ";" + a, a, pos)
    ensures pos + |a| > |v|
  {
    if pos + |a| <= |v| {
      assert v[pos..pos + |a|] == (v + ";" + a)[pos..pos + |a|];
      assert OccursAt(v, a, pos);
    }
  }

  lemma RemoveFromExtended(v: string, a: string)
    requires a != "" && !Contains(v, a)
    ensures StringRemove(v + ";" + a, a) == v <==> EndsWith(a, AtRisk(v, a))
  {
    var w, pos := v + ";" + a, FirstIn(v, a);
    OccurrenceReachesOut(v, a, pos);
    assert Find(w, a, 0) == Some(pos);
    if pos == 0 {
      TailIsInEntry(v, a, |a| + 1);
    } else {
      TailIsInEntry(v, a, pos + |a|);
      assert w[..pos - 1] == v[..pos - 1];
      assert v == v[..pos - 1] + v[pos - 1..];
      SameFront(v[..pos - 1], a[pos + |a| - |v| - 1..], v[pos - 1..]);
    }
  }

  lemma SameFront(front: string, x: string, y: string)
    requires |x| == |y|
    ensures front + x == front + y <==> x == y
  {
    assert (front + x)[|front|..] == x && (front + y)[|front|..] == y;
  }

  /** For every list and entry: adding and then removing gives the list back if and only if
      the entry is not part of the list's text and ends with what its first occurrence in
      the extended list puts at risk. The empty entry only leaves the empty list alone. */
  lemma AddThenRemoveIff(v: string, a: string)
    ensures StringRemove(StringAdd(v, a), a) == v <==>
            if a == "" then v == "" else !Contains(v, a) && EndsWith(a, AtRisk(v, a))
  {
    if a == "" {
      assert OccursAt(v, a, 0);
    } else if Contains(v, a) {
      var i :| OccursAt(v, a, i);
      assert Find(v, a, 0).Some?;
      assert |StringRemove(v, a)| < |v|;
    } else if v == "" {
      assert a[0..|a|] == a;
      assert OccursAt(a, a, 0);
      assert AtRisk(v, a) == "";
    } else {
      RemoveFromExtended(v, a);
    }
  }

  /** For an entry without a separator nothing is at risk, so it round-trips if and only if
      it was not part of the list's text. */
  lemma PlainEntryRoundTripsIff(v: string, a: string)
    requires a != "" && ';' !in a
    ensures StringRemove(StringAdd(v, a), a) == v <==> !Contains(v, a)
  {
    AddThenRemoveIff(v, a);
    if !Contains(v, a) {
      AddedEntryIsFound(v, a);
      assert AtRisk(v, a) == "";
    }
  }

  /** An entry that is part of another one is not added, and removing it damages the other
      one; an entry with a separator can be found across the joint. */
  lemma PartialEntries()
    ensures StringAdd("ab", "b") == "ab"
    ensures StringRemove("ab;b", "b") == ";b"
    ensures StringRemove("ab;b;b", "b;b") == ";b"
  {
    assert OccursAt("ab", "b", 1);
    var list, b := "ab;b", "b";
    assert list[0..1] == "a" && list[1..2] == "b";
    assert !OccursAt(list, b, 0) && OccursAt(list, b, 1);
    var long, bb := "ab;b;b", "b;b";
    assert long[0..3] == "ab;" && long[1..4] == "b;b";
    assert !OccursAt(long, bb, 0) && OccursAt(long, bb, 1);
  }

  // ---------------------------------------------------------------------
  // Lists of entries
  // ---------------------------------------------------------------------

  /** The text of a list of entries. */
  function Join(entries: seq<string>): string {
    if entries == [] then ""
    else if |entries| == 1 then entries[0]
    else Join(entries[..|entries| - 1]) + ";" + entries[|entries| - 1]
  }

  lemma {:induction false} JoinConcat(xs: seq<string>, ys: seq<string>)
    requires xs != [] && ys != []
    ensures Join(xs + ys) == Join(xs) + ";" + Join(ys)
    decreases |ys|
  {
    var front := ys[..|ys| - 1];
    assert (xs + ys)[..|xs + ys| - 1] == xs + front;
    if |ys| > 1 {
      JoinConcat(xs, front);
      assert Join(xs) + ";" + Join(front) + ";" + ys[|ys| - 1] == Join(xs) + ";" + (Join(front) + ";" + ys[|ys| - 1]);
    } else {
      assert xs + front == xs;
    }
  }

  ghost predicate Clear(entries: seq<string>, a: string) {
    forall i :: 0 <= i < |entries| ==> !Contains(entries[i], a)
  }

  /** Text without a separator is in the list only if it is in one of its entries. */
  lemma {:induction false} ClearListHasNoOccurrence(entries: seq<string>, a: string)
    requires a != "" && ';' !in a && Clear(entries, a)
    ensures !Contains(Join(entries), a)
  {
    if |entries| > 1 {
      var front, last := entries[..|entries| - 1], entries[|entries| - 1];
      assert Clear(front, a);
      ClearListHasNoOccurrence(front, a);
      if i: nat :| OccursAt(Join(entries), a, i) {
        var v := Join(front);
        if i <= |v| {
          EarlyOccurrence(v, last, a, i);
        } else {
          assert (v + ";" + last)[i..i + |a|] == last[i - |v| - 1..i - |v| - 1 + |a|];
          assert OccursAt(last, a, i - |v| - 1);
        }
        assert false;
      }
    } else if |entries| == 1 {
      assert !Contains(entries[0], a);
    }
  }

  /** The first occurrence is the one after a list that does not have the entry. */
  lemma FoundAfter(v: string, a: string, tail: string)
    requires a != "" && ';' !in a && !Contains(v, a)
    ensures Find(v + ";" + a + tail, a, 0) == Some(|v| + 1)
  {
    var w := v + ";" + a + tail;
    assert w == v + ";" + (a + tail);
    assert w[|v| + 1..|v| + 1 + |a|] == a;
    assert OccursAt(w, a, |v| + 1);
    var found := Find(w, a, 0).value;
    if found <= |v| {
      EarlyOccurrence(v, a + tail, a, found);
      assert false;
    }
  }

  lemma RemoveAfter(w: string, v: string, a: string, tail: string)
    requires a != "" && ';' !in a && !Contains(v, a) && w == v + ";" + a + tail
    ensures StringRemove(w, a) == v + tail
  {
    FoundAfter(v, a, tail);
    assert w[..|v|] == v && w[|v| + |a| + 1..] == tail;
  }

  lemma RemoveOnly(a: string)
    requires a != ""
    ensures StringRemove(a, a) == ""
  {
    assert a[0..|a|] == a;
    assert OccursAt(a, a, 0);
  }

  lemma RemoveFirst(w: string, a: string, tail: string)
    requires a != "" && w == a + ";" + tail
    ensures StringRemove(w, a) == tail
  {
    assert w[0..|a|] == a;
    assert OccursAt(w, a, 0);
    assert w[|a| + 1..] == tail;
  }

  function Before(xs: seq<string>): string {
    if xs == [] then "" else Join(xs) + ";"
  }

  function After(ys: seq<string>): string {
    if ys == [] then "" else ";" + Join(ys)
  }

  lemma JoinBefore(xs: seq<string>, e: string)
    ensures Join(xs + [e]) == Before(xs) + e
  {
    if xs == [] {
      assert xs + [e] == [e] && "" + e == e;
    } else {
      JoinConcat(xs, [e]);
    }
  }

  lemma JoinAround(xs: seq<string>, e: string, ys: seq<string>)
    ensures Join(xs + [e] + ys) == Before(xs) + e + After(ys)
  {
    JoinBefore(xs, e);
    if ys == [] {
      assert xs + [e] + ys == xs + [e];
    } else {
      JoinConcat(xs + [e], ys);
    }
  }

  lemma JoinOthers(xs: seq<string>, ys: seq<string>)
    ensures Join(xs + ys) == if xs == [] then Join(ys) else Join(xs) + After(ys)
  {
    if xs == [] {
      assert xs + ys == ys;
    } else if ys == [] {
      assert xs + ys == xs;
    } else {
      JoinConcat(xs, ys);
    }
  }

  lemma RemoveFromParts(xs: seq<string>, a: string, ys: seq<string>, w: string)
    requires a != "" && ';' !in a && !Contains(Join(xs), a) && w == Before(xs) + a + After(ys)
    ensures StringRemove(w, a) == if xs == [] then Join(ys) else Join(xs) + After(ys)
  {
    if xs != [] {
      RemoveAfter(w, Join(xs), a, After(ys));
    } else {
      FrontParts(a, Join(ys));
      if ys == [] {
        RemoveOnly(a);
      } else {
        RemoveFirst(w, a, Join(ys));
      }
    }
  }

  lemma FrontParts(a: string, tail: string)
    ensures "" + a + "" == a
    ensures "" + a + (";" + tail) == a + ";" + tail
  {}

  /** Removing an entry from the front, the middle or the end of a list leaves the other
      entries joined, if no entry before it has it as a part. */
  lemma RemoveLeavesTheOthers(xs: seq<string>, a: string, ys: seq<string>)
    requires a != "" && ';' !in a && Clear(xs, a)
    ensures StringRemove(Join(xs + [a] + ys), a) == Join(xs + ys)
  {
    JoinAround(xs, a, ys);
    JoinOthers(xs, ys);
    ClearListHasNoOccurrence(xs, a);
    RemoveFromParts(xs, a, ys, Join(xs + [a] + ys));
  }

  /** What is removed is one character more than the entry. */
  lemma RemovedLength(w: string, front: string, e: string, tail: string, a: string)
    requires a != "" && Contains(e, a) && w == front + e + tail && |a| < |w|
    ensures |StringRemove(w, a)| == |w| - |a| - 1
  {
    var i: nat :| OccursAt(e, a, i);
    assert w[|front| + i..|front| + i + |a|] == e[i..i + |a|];
    assert OccursAt(w, a, |front| + i);
    assert Find(w, a, 0).Some?;
  }

  lemma ContainedIsShorter(e: string, a: string)
    requires Contains(e, a) && e != a
    ensures |a| < |e|
  {
    var i: nat :| OccursAt(e, a, i);
    assert e[0..|e|] == e;
  }

  /** In a list of at least two entries, of which `e` is the first to contain the given one,
      removing it takes away the entry `e` if and only if `e` is the given entry; a list
      without such an entry stays as it is. */
  lemma RemovesTheEntryIff(xs: seq<string>, e: string, ys: seq<string>, a: string)
    requires a != "" && ';' !in a && Clear(xs, a) && xs + ys != []
    ensures StringRemove(Join(xs), a) == Join(xs)
    ensures Contains(e, a) ==> (StringRemove(Join(xs + [e] + ys), a) == Join(xs + ys) <==> e == a)
  {
    ClearListHasNoOccurrence(xs, a);
    if e == a {
      RemoveLeavesTheOthers(xs, a, ys);
    } else if Contains(e, a) {
      JoinAround(xs, e, ys);
      JoinOthers(xs, ys);
      ContainedIsShorter(e, a);
      RemovedLength(Join(xs + [e] + ys), Before(xs), e, After(ys), a);
    }
  }

  /** Adding an entry that is not part of the list puts it at the end. */
  lemma AddAppends(entries: seq<string>, a: string)
    requires a != "" && ';' !in a && Clear(entries, a) && Join(entries) != ""
    ensures StringAdd(Join(entries), a) == Join(entries + [a])
  {
    ClearListHasNoOccurrence(entries, a);
    assert (entries + [a])[..|entries|] == entries;
  }
}
