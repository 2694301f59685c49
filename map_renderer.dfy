/**
 * The text map: terrain symbols, the squaddie label allocator, the grid with its
 * hex-offset indentation, the fixed legend, the squaddie listing, and the whole
 * map text.
 *
 * The label allocator groups the ids found by a row-major scan by their
 * upper-cased first character. A group of one gets that character. A larger
 * group gets, at the first offset 1..19 where the members' upper-cased
 * characters (the first character standing in past the end of an id) are all
 * different, those characters; failing that, the first character followed by
 * the member's index in the group. Labels differ within a group; two groups can
 * still produce the same label (see `LabelsCanCollideAcrossGroups`).
 */
module MapRenderer {
  import opened Wrappers
  import opened Text
  import opened Engine

  // ---------------------------------------------------------------------------
  // Terrain symbols
  // ---------------------------------------------------------------------------

  /** The terrain decision table. An absent movement cost is a wall whatever `canStop` says. */
  function TerrainToSymbol(movementCost: Option<int>, canStop: bool): (s: string)
    ensures s == "." <==> canStop && movementCost == Some(1)
    ensures s == "~" <==> canStop && movementCost.Some? && movementCost.value != 1
    ensures s == "_" <==> !canStop && movementCost.Some?
    ensures s == "#" <==> movementCost.None?
  {
    if canStop && movementCost == Some(1) then "."
    else if canStop && movementCost.Some? then "~"
    else if !canStop && movementCost.Some? then "_"
    else "#"
  }

  // ---------------------------------------------------------------------------
  // Label allocation: specification
  // ---------------------------------------------------------------------------

  predicate AllNonEmpty(ids: seq<string>) {
    forall i :: 0 <= i < |ids| ==> |ids[i]| > 0
  }

  predicate Distinct<T(==)>(s: seq<T>) {
    forall i, j :: 0 <= i < j < |s| ==> s[i] != s[j]
  }

  function ToSet<T(==)>(s: seq<T>): set<T> {
    set x | x in s
  }

  /** `new Set(s).size === s.length` holds exactly when the elements of `s` are pairwise different. */
  lemma {:induction false} SetSizeDistinct<T>(s: seq<T>)
    ensures |ToSet(s)| <= |s|
    ensures |ToSet(s)| == |s| <==> Distinct(s)
    decreases |s|
  {
    if |s| > 0 {
      var rest := s[1..];
      SetSizeDistinct(rest);
      assert ToSet(s) == {s[0]} + ToSet(rest);
      if s[0] in rest {
        assert ToSet(s) == ToSet(rest);
        var k :| 0 <= k < |rest| && rest[k] == s[0];
        assert s[0] == s[k + 1];
      } else {
        assert Distinct(s) <==> Distinct(rest) by {
          if Distinct(rest) {
            forall i, j | 0 <= i < j < |s| ensures s[i] != s[j] {
              if i > 0 { assert s[i] == rest[i - 1] && s[j] == rest[j - 1]; }
              else { assert s[j] == rest[j - 1]; }
            }
          }
          if Distinct(s) {
            forall i, j | 0 <= i < j < |rest| ensures rest[i] != rest[j] {
              assert rest[i] == s[i + 1] && rest[j] == s[j + 1];
            }
          }
        }
      }
    }
  }

  /** The group key of an id: its first character, upper-cased. */
  function FirstChar(id: string): char
    requires |id| > 0
  {
    UpperChar(id[0])
  }

  /** The candidate label at offset `k`: `(id[k] ?? id[0]).toUpperCase()`. */
  function Candidate(id: string, k: nat): char
    requires |id| > 0
  {
    UpperChar(if k < |id| then id[k] else id[0])
  }

  function CandidateLabels(ids: seq<string>, k: nat): (ls: seq<string>)
    requires AllNonEmpty(ids)
    ensures |ls| == |ids|
    ensures forall i :: 0 <= i < |ids| ==> ls[i] == [Candidate(ids[i], k)]
  {
    seq(|ids|, i requires 0 <= i < |ids| => [Candidate(ids[i], k)])
  }

  /** The allocator's distinctness test, `new Set(candidates).size === candidates.length`. */
  predicate AllUnique(candidates: seq<string>) {
    |ToSet(candidates)| == |candidates|
  }

  /** The offset search, from offset `k` on: the first offset below 20 whose candidates pass the test. */
  function SearchFrom(ids: seq<string>, k: nat): Option<nat>
    requires AllNonEmpty(ids) && 1 <= k <= 20
    decreases 20 - k
  {
    if k == 20 then None
    else if AllUnique(CandidateLabels(ids, k)) then Some(k)
    else SearchFrom(ids, k + 1)
  }

  /** An offset the search returns lies in `k..19` and has pairwise distinct candidates. */
  lemma {:induction false} SearchFromFound(ids: seq<string>, k: nat)
    requires AllNonEmpty(ids) && 1 <= k <= 20 && SearchFrom(ids, k).Some?
    ensures k <= SearchFrom(ids, k).value < 20
    ensures Distinct(CandidateLabels(ids, SearchFrom(ids, k).value))
    decreases 20 - k
  {
    if AllUnique(CandidateLabels(ids, k)) {
      SetSizeDistinct(CandidateLabels(ids, k));
    } else {
      SearchFromFound(ids, k + 1);
    }
  }

  /** Every offset the search passes over, from `k` up to its result (or to 20 when it finds
      nothing), repeats a candidate. */
  lemma {:induction false} SearchFromSkipped(ids: seq<string>, k: nat, j: nat)
    requires AllNonEmpty(ids) && 1 <= k <= j < 20
    requires SearchFrom(ids, k).None? || j < SearchFrom(ids, k).value
    ensures !Distinct(CandidateLabels(ids, j))
    decreases j - k
  {
    SetSizeDistinct(CandidateLabels(ids, k));
    if k < j {
      SearchFromSkipped(ids, k + 1, j);
    }
  }

  /** The smallest offset in 1..19 at which the candidates are distinct, if any. */
  function FirstDistinctOffset(ids: seq<string>): Option<nat>
    requires AllNonEmpty(ids)
  {
    SearchFrom(ids, 1)
  }

  /** The offset chosen is the least offset in 1..19 with pairwise distinct candidates; there is
      none exactly when every offset in 1..19 repeats a candidate. */
  lemma FirstDistinctOffsetLeast(ids: seq<string>)
    requires AllNonEmpty(ids)
    ensures FirstDistinctOffset(ids).Some? ==>
      && 1 <= FirstDistinctOffset(ids).value < 20
      && Distinct(CandidateLabels(ids, FirstDistinctOffset(ids).value))
      && forall j :: 1 <= j < FirstDistinctOffset(ids).value ==> !Distinct(CandidateLabels(ids, j))
    ensures FirstDistinctOffset(ids).None? <==> forall j :: 1 <= j < 20 ==> !Distinct(CandidateLabels(ids, j))
  {
    var r := FirstDistinctOffset(ids);
    if r.Some? {
      SearchFromFound(ids, 1);
    }
    forall j | 1 <= j < 20 && (r.None? || j < r.value) ensures !Distinct(CandidateLabels(ids, j)) {
      SearchFromSkipped(ids, 1, j);
    }
  }

  /** The fallback labels: first character and the decimal index within the group. */
  function FallbackLabels(ids: seq<string>): (ls: seq<string>)
    requires AllNonEmpty(ids)
    ensures |ls| == |ids|
    ensures forall i :: 0 <= i < |ids| ==> ls[i] == [FirstChar(ids[i])] + NatToString(i)
  {
    seq(|ids|, i requires 0 <= i < |ids| => [FirstChar(ids[i])] + NatToString(i))
  }

  /** The labels `assignDisambiguatedLabels` gives a colliding group, member by member. */
  function DisambiguatedLabels(ids: seq<string>): (ls: seq<string>)
    requires AllNonEmpty(ids)
    ensures |ls| == |ids|
  {
    match FirstDistinctOffset(ids)
    case Some(k) => CandidateLabels(ids, k)
    case None => FallbackLabels(ids)
  }

  /** The labels of the group keyed `c`: the key itself for a group of one. */
  function GroupLabels(g: seq<string>, c: char): (ls: seq<string>)
    requires AllNonEmpty(g)
    ensures |ls| == |g|
  {
    if |g| == 1 then [[c]] else DisambiguatedLabels(g)
  }

  /** `labels.set(ks[i], vs[i])` for i = 0, 1, ... in turn. */
  function SetEach(acc: map<string, string>, ks: seq<string>, vs: seq<string>): map<string, string>
    requires |ks| == |vs|
  {
    if ks == [] then acc
    else
      var n := |ks| - 1;
      SetEach(acc, ks[..n], vs[..n])[ks[n] := vs[n]]
  }

  /** After the updates the keys are those of `acc` and `ks`; keys outside `ks` keep their
      values, and with distinct keys each `ks[i]` maps to `vs[i]`. */
  lemma {:induction false} SetEachProps(acc: map<string, string>, ks: seq<string>, vs: seq<string>)
    requires |ks| == |vs|
    ensures forall k :: k in SetEach(acc, ks, vs) <==> k in acc || k in ks
    ensures forall k :: k in acc && k !in ks ==> SetEach(acc, ks, vs)[k] == acc[k]
    ensures Distinct(ks) ==> forall i :: 0 <= i < |ks| ==> SetEach(acc, ks, vs)[ks[i]] == vs[i]
    decreases |ks|
  {
    if ks != [] {
      var n := |ks| - 1;
      SetEachProps(acc, ks[..n], vs[..n]);
      assert ks == ks[..n] + [ks[n]];
      if Distinct(ks) {
        assert Distinct(ks[..n]);
        forall i | 0 <= i < n ensures ks[i] != ks[n] {
        }
      }
    }
  }

  /** Extending the assigned prefix by one key is one more map update. */
  lemma SetEachPrefix(acc: map<string, string>, ks: seq<string>, vs: seq<string>, i: nat)
    requires |ks| == |vs| && i < |ks|
    ensures SetEach(acc, ks[..i + 1], vs[..i + 1]) == SetEach(acc, ks[..i], vs[..i])[ks[i] := vs[i]]
  {
    assert ks[..i + 1][..i] == ks[..i];
    assert vs[..i + 1][..i] == vs[..i];
  }

  /** The members of `ids` whose group key is `c`, in scan order. */
  function Group(ids: seq<string>, c: char): (g: seq<string>)
    requires AllNonEmpty(ids)
    ensures |g| <= |ids|
    ensures forall i :: 0 <= i < |g| ==> |g[i]| > 0 && FirstChar(g[i]) == c
  {
    if ids == [] then []
    else
      var n := |ids| - 1;
      Group(ids[..n], c) + (if FirstChar(ids[n]) == c then [ids[n]] else [])
  }

  /** Scanning one more id appends it to its own group and to no other. */
  lemma GroupSnoc(seen: seq<string>, id: string, c: char)
    requires AllNonEmpty(seen) && |id| > 0
    ensures AllNonEmpty(seen + [id])
    ensures Group(seen + [id], c) == Group(seen, c) + (if FirstChar(id) == c then [id] else [])
  {
    assert (seen + [id])[..|seen|] == seen;
  }

  /** The members of group `c` are exactly the ids whose group key is `c`. */
  lemma {:induction false} GroupMembers(ids: seq<string>, c: char)
    requires AllNonEmpty(ids)
    ensures forall id :: id in Group(ids, c) <==> id in ids && |id| > 0 && FirstChar(id) == c
    decreases |ids|
  {
    if ids != [] {
      var n := |ids| - 1;
      GroupMembers(ids[..n], c);
      assert ids == ids[..n] + [ids[n]];
    }
  }

  /** A group of distinct ids has no repeated member. */
  lemma {:induction false} GroupDistinct(ids: seq<string>, c: char)
    requires AllNonEmpty(ids) && Distinct(ids)
    ensures Distinct(Group(ids, c))
    decreases |ids|
  {
    if ids != [] {
      var n := |ids| - 1;
      var init := ids[..n];
      assert Distinct(init) by {
        forall i, j | 0 <= i < j < n ensures init[i] != init[j] {
          assert init[i] == ids[i] && init[j] == ids[j];
        }
      }
      GroupDistinct(init, c);
      if FirstChar(ids[n]) == c {
        var g := Group(init, c);
        GroupMembers(init, c);
        forall i | 0 <= i < |g| ensures g[i] != ids[n] {
          assert g[i] in g;
          assert g[i] in init;
        }
        assert Group(ids, c) == g + [ids[n]];
      }
    }
  }

  /** The group keys in first-occurrence order (the iteration order of the JavaScript Map). */
  function GroupKeys(ids: seq<string>): (keys: seq<char>)
    requires AllNonEmpty(ids)
  {
    if ids == [] then []
    else
      var n := |ids| - 1;
      var keys := GroupKeys(ids[..n]);
      var f := FirstChar(ids[n]);
      if f in keys then keys else keys + [f]
  }

  /** Scanning one more id adds its key at the end, unless the key is already present. */
  lemma GroupKeysSnoc(seen: seq<string>, id: string)
    requires AllNonEmpty(seen) && |id| > 0
    ensures AllNonEmpty(seen + [id])
    ensures GroupKeys(seen + [id])
         == (var keys := GroupKeys(seen); if FirstChar(id) in keys then keys else keys + [FirstChar(id)])
  {
    assert (seen + [id])[..|seen|] == seen;
  }

  /** A character is a group key exactly when its group is non-empty. */
  lemma {:induction false} GroupKeysMembers(ids: seq<string>, c: char)
    requires AllNonEmpty(ids)
    ensures c in GroupKeys(ids) <==> Group(ids, c) != []
    decreases |ids|
  {
    if ids != [] {
      var n := |ids| - 1;
      GroupKeysMembers(ids[..n], c);
    }
  }

  /** After scanning `seen`: `order` holds the group keys in first-occurrence order and
      `groups` maps each of them to its group so far. */
  predicate Grouped(seen: seq<string>, groups: map<char, seq<string>>, order: seq<char>)
    requires AllNonEmpty(seen)
  {
    && order == GroupKeys(seen)
    && (forall c :: c in groups <==> c in order)
    && (forall c :: c in groups ==> groups[c] == Group(seen, c))
  }

  /** One group after scanning `id`: the old group (empty when new), plus `id` when it belongs
      there. */
  lemma GroupedSnocAt(seen: seq<string>, id: string, groups: map<char, seq<string>>, order: seq<char>, c: char)
    requires AllNonEmpty(seen) && |id| > 0 && Grouped(seen, groups, order)
    ensures AllNonEmpty(seen + [id])
    ensures Group(seen + [id], c)
         == (if c in groups then groups[c] else []) + (if FirstChar(id) == c then [id] else [])
  {
    GroupSnoc(seen, id, c);
    if c !in groups {
      GroupKeysMembers(seen, c);
    }
  }

  /** Appending `id` to its group (opening the group first if it is new) keeps `Grouped`. */
  lemma GroupedSnoc(seen: seq<string>, id: string, groups: map<char, seq<string>>, order: seq<char>)
    requires AllNonEmpty(seen) && |id| > 0 && Grouped(seen, groups, order)
    ensures AllNonEmpty(seen + [id])
    ensures var c := FirstChar(id);
      Grouped(seen + [id],
        groups[c := (if c in groups then groups[c] else []) + [id]],
        if c in groups then order else order + [c])
  {
    var fc := FirstChar(id);
    var groups' := groups[fc := (if fc in groups then groups[fc] else []) + [id]];
    var order' := if fc in groups then order else order + [fc];
    GroupKeysSnoc(seen, id);
    forall c | c in groups'
      ensures groups'[c] == Group(seen + [id], c)
    {
      GroupedSnocAt(seen, id, groups, order, c);
    }
  }

  /** The label map after assigning the groups keyed by `keys`, in that order, on top of `acc`. */
  function AssignGroups(keys: seq<char>, ids: seq<string>, acc: map<string, string>): map<string, string>
    requires AllNonEmpty(ids)
  {
    if keys == [] then acc
    else
      var c := keys[|keys| - 1];
      var g := Group(ids, c);
      SetEach(AssignGroups(keys[..|keys| - 1], ids, acc), g, GroupLabels(g, c))
  }

  /** Assigning one more group is one more `SetEach` with that group's labels. */
  lemma AssignGroupsStep(keys: seq<char>, ids: seq<string>, j: nat)
    requires AllNonEmpty(ids) && j < |keys|
    ensures AssignGroups(keys[..j + 1], ids, map[])
         == SetEach(AssignGroups(keys[..j], ids, map[]), Group(ids, keys[j]), GroupLabels(Group(ids, keys[j]), keys[j]))
  {
    assert keys[..j + 1][..j] == keys[..j];
  }

  /** The label map `buildSquaddieLabels` produces for the scanned ids. */
  function Labels(ids: seq<string>): map<string, string>
    requires AllNonEmpty(ids)
  {
    AssignGroups(GroupKeys(ids), ids, map[])
  }

  // ---------------------------------------------------------------------------
  // Label allocation: properties
  // ---------------------------------------------------------------------------

  lemma {:induction false} AssignGroupsKeys(keys: seq<char>, ids: seq<string>, acc: map<string, string>)
    requires AllNonEmpty(ids)
    ensures forall id :: id in AssignGroups(keys, ids, acc) <==> id in acc || (id in ids && |id| > 0 && FirstChar(id) in keys)
    decreases |keys|
  {
    if keys != [] {
      var prefix := keys[..|keys| - 1];
      var c := keys[|keys| - 1];
      assert keys == prefix + [c];
      AssignGroupsKeys(prefix, ids, acc);
      GroupMembers(ids, c);
      var g := Group(ids, c);
      var before := AssignGroups(prefix, ids, acc);
      assert AssignGroups(keys, ids, acc) == SetEach(before, g, GroupLabels(g, c));
      SetEachProps(before, g, GroupLabels(g, c));
      forall id
        ensures id in AssignGroups(keys, ids, acc) <==> id in acc || (id in ids && |id| > 0 && FirstChar(id) in keys)
      {
        assert id in AssignGroups(keys, ids, acc) <==> id in before || id in g;
        if |id| > 0 {
          assert FirstChar(id) in keys <==> FirstChar(id) in prefix || FirstChar(id) == c;
        }
      }
    }
  }

  /** Every scanned id receives a label, and only scanned ids do. */
  lemma LabelsDomain(ids: seq<string>)
    requires AllNonEmpty(ids)
    ensures forall id :: id in Labels(ids) <==> id in ids
  {
    AssignGroupsKeys(GroupKeys(ids), ids, map[]);
    forall id | id in ids ensures |id| > 0 && FirstChar(id) in GroupKeys(ids) {
      GroupMembers(ids, FirstChar(id));
      assert id in Group(ids, FirstChar(id));
      GroupKeysMembers(ids, FirstChar(id));
    }
  }

  lemma {:induction false} AssignGroupsValue(keys: seq<char>, ids: seq<string>, acc: map<string, string>, c: char, i: nat)
    requires AllNonEmpty(ids) && Distinct(ids)
    requires c in keys && i < |Group(ids, c)|
    ensures Group(ids, c)[i] in AssignGroups(keys, ids, acc)
    ensures AssignGroups(keys, ids, acc)[Group(ids, c)[i]] == GroupLabels(Group(ids, c), c)[i]
    decreases |keys|
  {
    var last := keys[|keys| - 1];
    var prefix := keys[..|keys| - 1];
    var g := Group(ids, c);
    var id := g[i];
    assert id in g;
    var lg := Group(ids, last);
    if last != c {
      assert keys == prefix + [last];
      assert c in prefix;
      AssignGroupsValue(prefix, ids, acc, c, i);
      GroupMembers(ids, last);
      assert id !in lg;
      SetEachProps(AssignGroups(prefix, ids, acc), lg, GroupLabels(lg, last));
    } else {
      GroupDistinct(ids, c);
      SetEachProps(AssignGroups(prefix, ids, acc), lg, GroupLabels(lg, last));
    }
  }

  /** The label of the i-th member of group `c` is the i-th label that group is assigned. */
  lemma LabelOfGroupMember(ids: seq<string>, c: char, i: nat)
    requires AllNonEmpty(ids) && Distinct(ids)
    requires i < |Group(ids, c)|
    ensures Group(ids, c)[i] in Labels(ids)
    ensures Labels(ids)[Group(ids, c)[i]] == GroupLabels(Group(ids, c), c)[i]
  {
    assert Group(ids, c)[i] in Group(ids, c);
    GroupKeysMembers(ids, c);
    AssignGroupsValue(GroupKeys(ids), ids, map[], c, i);
  }

  /** A group no id belongs to is empty. */
  lemma {:induction false} GroupNone(ids: seq<string>, c: char)
    requires AllNonEmpty(ids)
    requires forall j :: 0 <= j < |ids| ==> FirstChar(ids[j]) != c
    ensures Group(ids, c) == []
    decreases |ids|
  {
    if ids != [] {
      GroupNone(ids[..|ids| - 1], c);
    }
  }

  /** A group exactly one position belongs to holds just that id. */
  lemma {:induction false} GroupSingleton(ids: seq<string>, c: char, i: nat)
    requires AllNonEmpty(ids) && i < |ids| && FirstChar(ids[i]) == c
    requires forall j :: 0 <= j < |ids| && j != i ==> FirstChar(ids[j]) != c
    ensures Group(ids, c) == [ids[i]]
    decreases |ids|
  {
    var n := |ids| - 1;
    if i < n {
      GroupSingleton(ids[..n], c, i);
    } else {
      GroupNone(ids[..n], c);
    }
  }

  /** An id whose upper-cased first character no other id shares is labelled with exactly that character. */
  lemma UniqueFirstCharLabel(ids: seq<string>, i: nat)
    requires AllNonEmpty(ids) && Distinct(ids) && i < |ids|
    requires forall j :: 0 <= j < |ids| && j != i ==> FirstChar(ids[j]) != FirstChar(ids[i])
    ensures ids[i] in Labels(ids)
    ensures Labels(ids)[ids[i]] == [FirstChar(ids[i])]
  {
    GroupSingleton(ids, FirstChar(ids[i]), i);
    LabelOfGroupMember(ids, FirstChar(ids[i]), 0);
  }

  /** The search outcome decides the labels of a colliding group: the candidates at the
      smallest distinct offset, else first character and index. */
  lemma CollidingGroupLabels(ids: seq<string>, c: char, i: nat)
    requires AllNonEmpty(ids) && Distinct(ids)
    requires |Group(ids, c)| >= 2 && i < |Group(ids, c)|
    ensures Group(ids, c)[i] in Labels(ids)
    ensures FirstDistinctOffset(Group(ids, c)).Some? ==>
      Labels(ids)[Group(ids, c)[i]] == [Candidate(Group(ids, c)[i], FirstDistinctOffset(Group(ids, c)).value)]
    ensures FirstDistinctOffset(Group(ids, c)).None? ==>
      Labels(ids)[Group(ids, c)[i]] == [c] + NatToString(i)
  {
    LabelOfGroupMember(ids, c, i);
  }

  /** The labels of one group are pairwise different. */
  lemma GroupLabelsDistinct(g: seq<string>, c: char)
    requires AllNonEmpty(g)
    ensures Distinct(GroupLabels(g, c))
  {
    if |g| != 1 && FirstDistinctOffset(g).Some? {
      SearchFromFound(g, 1);
    }
    if |g| != 1 && FirstDistinctOffset(g).None? {
      var ls := FallbackLabels(g);
      forall i, j | 0 <= i < j < |ls| ensures ls[i] != ls[j] {
        NatToStringInjective(i, j);
        assert ls[i][1..] == NatToString(i) && ls[j][1..] == NatToString(j);
      }
    }
  }

  /** Two different ids with the same upper-cased first character get different labels. */
  lemma LabelsDistinctWithinGroup(ids: seq<string>, a: nat, b: nat)
    requires AllNonEmpty(ids) && Distinct(ids)
    requires a < |ids| && b < |ids| && a != b
    requires FirstChar(ids[a]) == FirstChar(ids[b])
    ensures ids[a] in Labels(ids) && ids[b] in Labels(ids)
    ensures Labels(ids)[ids[a]] != Labels(ids)[ids[b]]
  {
    var c := FirstChar(ids[a]);
    var g := Group(ids, c);
    GroupMembers(ids, c);
    assert ids[a] in g && ids[b] in g;
    var i :| 0 <= i < |g| && g[i] == ids[a];
    var j :| 0 <= j < |g| && g[j] == ids[b];
    assert i != j by { assert ids[a] != ids[b]; }
    LabelOfGroupMember(ids, c, i);
    LabelOfGroupMember(ids, c, j);
    GroupLabelsDistinct(g, c);
    var ls := GroupLabels(g, c);
    assert ls[i] != ls[j] by {
      if i < j { assert ls[i] != ls[j]; } else { assert ls[j] != ls[i]; }
    }
  }

  /** When every id belongs to group `c`, the group is all of them, in order. */
  lemma {:induction false} GroupAll(ids: seq<string>, c: char)
    requires AllNonEmpty(ids)
    requires forall j :: 0 <= j < |ids| ==> FirstChar(ids[j]) == c
    ensures Group(ids, c) == ids
    decreases |ids|
  {
    if ids != [] {
      GroupAll(ids[..|ids| - 1], c);
    }
  }

  /** The group of `c` in `ids` is its group in the prefix when no later id belongs to it. */
  lemma {:induction false} GroupSplit(ids: seq<string>, c: char, n: nat)
    requires AllNonEmpty(ids) && n <= |ids|
    requires forall j :: n <= j < |ids| ==> FirstChar(ids[j]) != c
    ensures Group(ids, c) == Group(ids[..n], c)
    decreases |ids|
  {
    if |ids| > n {
      assert ids[..|ids| - 1][..n] == ids[..n];
      GroupSplit(ids[..|ids| - 1], c, n);
    } else {
      assert ids[..n] == ids;
    }
  }

  /** "lini" and "largo" differ at offset 1, as "I" and "A". */
  lemma LiniLargoOffset()
    ensures FirstDistinctOffset(["lini", "largo"]) == Some(1)
    ensures CandidateLabels(["lini", "largo"], 1)[1] == "A"
  {
    var ls := CandidateLabels(["lini", "largo"], 1);
    assert ls[0] == "I" && ls[1] == "A";
    assert Distinct(ls);
    SetSizeDistinct(ls);
  }

  /** "archer" is alone in its first-character group, so it is labelled "A". */
  lemma ArcherLabel(ids: seq<string>)
    requires ids == ["lini", "largo", "archer"]
    ensures AllNonEmpty(ids) && "archer" in Labels(ids) && Labels(ids)["archer"] == "A"
  {
    assert Distinct(ids);
    assert FirstChar(ids[0]) == 'L' && FirstChar(ids[1]) == 'L' && FirstChar(ids[2]) == 'A';
    GroupSingleton(ids, 'A', 2);
    UniqueFirstCharLabel(ids, 2);
  }

  /** "largo" shares 'L' with "lini"; offset 1 tells them apart and gives "largo" the label "A". */
  lemma LargoLabel(ids: seq<string>)
    requires ids == ["lini", "largo", "archer"]
    ensures AllNonEmpty(ids) && "largo" in Labels(ids) && Labels(ids)["largo"] == "A"
  {
    var g := Group(ids, 'L');
    assert g == ["lini", "largo"] by {
      assert FirstChar(ids[0]) == 'L' && FirstChar(ids[1]) == 'L' && FirstChar(ids[2]) == 'A';
      GroupSplit(ids, 'L', 2);
      GroupAll(ids[..2], 'L');
    }
    assert [Candidate(g[1], FirstDistinctOffset(g).value)] == "A" by {
      LiniLargoOffset();
    }
    assert Distinct(ids);
    CollidingGroupLabels(ids, 'L', 1);
  }

  /** Labels are not unique across groups: "lini" and "largo" collide on 'L' and are told
      apart at offset 1 as "I" and "A", while "archer" alone in its group also gets "A". */
  lemma LabelsCanCollideAcrossGroups(ids: seq<string>)
    requires ids == ["lini", "largo", "archer"]
    ensures AllNonEmpty(ids) && "largo" in Labels(ids) && "archer" in Labels(ids)
    ensures Labels(ids)["largo"] == Labels(ids)["archer"] == "A"
  {
    ArcherLabel(ids);
    LargoLabel(ids);
  }

  // ---------------------------------------------------------------------------
  // Label allocation: the imperative allocator
  // ---------------------------------------------------------------------------

  /** `labels.set(ids[i], newLabels[i])` for each member in turn. */
  method SetLabels(labels: map<string, string>, ids: seq<string>, newLabels: seq<string>) returns (updated: map<string, string>)
    requires |ids| == |newLabels|
    ensures updated == SetEach(labels, ids, newLabels)
  {
    updated := labels;
    var i := 0;
    while i < |ids|
      invariant 0 <= i <= |ids|
      invariant updated == SetEach(labels, ids[..i], newLabels[..i])
    {
      SetEachPrefix(labels, ids, newLabels, i);
      updated := updated[ids[i] := newLabels[i]];
      i := i + 1;
    }
    assert ids[..|ids|] == ids && newLabels[..|ids|] == newLabels;
  }

  /** Labels a colliding group: tries offsets 1..19 and stops at the first whose candidates
      are all different, else falls back to first character and index. The caller's label
      map is updated by returning the new map. */
  method AssignDisambiguatedLabels(ids: seq<string>, labels: map<string, string>) returns (updated: map<string, string>)
    requires AllNonEmpty(ids)
    ensures updated == SetEach(labels, ids, DisambiguatedLabels(ids))
  {
    var charIndex := 1;
    while charIndex < 20
      invariant 1 <= charIndex <= 20
      invariant SearchFrom(ids, charIndex) == FirstDistinctOffset(ids)
    {
      var candidateLabels := CandidateLabels(ids, charIndex);
      var allUnique := |ToSet(candidateLabels)| == |candidateLabels|;
      if allUnique {
        assert DisambiguatedLabels(ids) == candidateLabels;
        updated := SetLabels(labels, ids, candidateLabels);
        return;
      }
      charIndex := charIndex + 1;
    }
    assert DisambiguatedLabels(ids) == FallbackLabels(ids);
    updated := SetLabels(labels, ids, FallbackLabels(ids));
  }

  /** Every occupant of `row` has a label. */
  predicate RowLabelled(row: seq<Tile>, labels: map<string, string>) {
    forall c :: 0 <= c < |row| && Occupied(row[c]) ==> SquaddieKey(row[c]) in labels
  }

  /** Every squaddie on the map has a label in `labels`: the `!` lookups cannot fail. */
  predicate Labelled(tiles: seq<seq<Tile>>, labels: map<string, string>) {
    forall r :: 0 <= r < |tiles| ==> RowLabelled(tiles[r], labels)
  }

  /** The labels of the scanned ids cover every occupied tile. */
  lemma LabelsCoverScan(tiles: seq<seq<Tile>>)
    requires AllNonEmpty(ScanIds(tiles))
    ensures Labelled(tiles, Labels(ScanIds(tiles)))
  {
    var ids := ScanIds(tiles);
    LabelsDomain(ids);
    var ts := OccupiedTiles(tiles);
    OccupiedTilesMembers(tiles);
    forall r, c | 0 <= r < |tiles| && 0 <= c < |tiles[r]| && Occupied(tiles[r][c])
      ensures SquaddieKey(tiles[r][c]) in Labels(ids)
    {
      var t := tiles[r][c];
      assert t in tiles[r];
      assert t in ts;
      var i :| 0 <= i < |ts| && ts[i] == t;
      assert ids[i] == SquaddieKey(t);
    }
  }

  /** First phase of `buildSquaddieLabels`: the occupants' ids in row-major order. */
  method CollectSquaddieIds(tiles: seq<seq<Tile>>) returns (squaddieIds: seq<string>)
    ensures squaddieIds == ScanIds(tiles)
  {
    squaddieIds := [];
    var r := 0;
    while r < |tiles|
      invariant 0 <= r <= |tiles|
      invariant squaddieIds == ScanIds(tiles[..r])
    {
      var row := tiles[r];
      var c := 0;
      ScanIdsRowStart(tiles, r);
      while c < |row|
        invariant 0 <= c <= |row|
        invariant squaddieIds == ScanIdsUpTo(tiles, r, c)
      {
        var tile := row[c];
        ScanIdsStep(tiles, r, c);
        if tile.squaddie.Some? {
          squaddieIds := squaddieIds + [tile.squaddie.value.outOfBattleId];
        }
        c := c + 1;
      }
      ScanIdsRowDone(tiles, r);
      r := r + 1;
    }
    assert tiles[..|tiles|] == tiles;
  }

  /** Files `id` under its upper-cased first character, opening that group (at the end of
      `order`) when it is new. */
  method AddToGroup(groups: map<char, seq<string>>, order: seq<char>, id: string)
    returns (groups': map<char, seq<string>>, order': seq<char>)
    requires |id| > 0
    ensures var c := FirstChar(id);
      && groups' == groups[c := (if c in groups then groups[c] else []) + [id]]
      && order' == (if c in groups then order else order + [c])
  {
    groups', order' := groups, order;
    var firstChar := UpperChar(id[0]);
    if firstChar !in groups' {
      groups' := groups'[firstChar := []];
      order' := order' + [firstChar];
    }
    groups' := groups'[firstChar := groups'[firstChar] + [id]];
  }

  /** Second phase: the groups by upper-cased first character, and the order in which the
      JavaScript Map first saw their keys. */
  method GroupByFirstChar(ids: seq<string>) returns (firstCharGroups: map<char, seq<string>>, order: seq<char>)
    requires AllNonEmpty(ids)
    ensures order == GroupKeys(ids)
    ensures forall c :: c in firstCharGroups <==> c in order
    ensures forall c :: c in firstCharGroups ==> firstCharGroups[c] == Group(ids, c)
  {
    firstCharGroups := map[];
    order := [];
    var i := 0;
    while i < |ids|
      invariant 0 <= i <= |ids|
      invariant Grouped(ids[..i], firstCharGroups, order)
    {
      var id := ids[i];
      assert ids[..i + 1] == ids[..i] + [id];
      GroupedSnoc(ids[..i], id, firstCharGroups, order);
      firstCharGroups, order := AddToGroup(firstCharGroups, order, id);
      i := i + 1;
    }
    assert ids[..|ids|] == ids;
  }

  /** Scans the map in row-major order, groups the ids by upper-cased first character and
      labels each group; the result is the label map of the scanned ids. */
  method BuildSquaddieLabels(overview: MapOverview) returns (labels: map<string, string>)
    requires AllNonEmpty(ScanIds(overview.tiles))
    ensures labels == Labels(ScanIds(overview.tiles))
    ensures forall id :: id in labels <==> id in ScanIds(overview.tiles)
    ensures Labelled(overview.tiles, labels)
  {
    var ids := CollectSquaddieIds(overview.tiles);
    var firstCharGroups, order := GroupByFirstChar(ids);
    labels := AssignGroupLabels(ids, firstCharGroups, order);
    assert forall id :: id in labels <==> id in ids by {
      LabelsDomain(ids);
    }
    assert Labelled(overview.tiles, labels) by {
      LabelsCoverScan(overview.tiles);
    }
  }

  /** Third phase: each group in key order, a group of one labelled with its key, any other
      group by the offset search. */
  method AssignGroupLabels(ids: seq<string>, firstCharGroups: map<char, seq<string>>, order: seq<char>)
    returns (labels: map<string, string>)
    requires AllNonEmpty(ids)
    requires forall c :: c in order ==> c in firstCharGroups && firstCharGroups[c] == Group(ids, c)
    ensures labels == AssignGroups(order, ids, map[])
  {
    labels := map[];
    var j := 0;
    while j < |order|
      invariant 0 <= j <= |order|
      invariant labels == AssignGroups(order[..j], ids, map[])
    {
      var firstChar := order[j];
      var group := firstCharGroups[firstChar];
      labels := LabelGroup(group, firstChar, labels);
      assert labels == AssignGroups(order[..j + 1], ids, map[]) by {
        AssignGroupsStep(order, ids, j);
      }
      j := j + 1;
    }
    assert order[..|order|] == order;
  }

  /** One group: a group of one is labelled with its key, any other group by the offset search. */
  method LabelGroup(group: seq<string>, firstChar: char, labels: map<string, string>) returns (updated: map<string, string>)
    requires AllNonEmpty(group)
    ensures updated == SetEach(labels, group, GroupLabels(group, firstChar))
  {
    if |group| == 1 {
      assert SetEach(labels, group, [[firstChar]]) == labels[group[0] := [firstChar]] by {
        assert group[..0] == [];
      }
      updated := labels[group[0] := [firstChar]];
    } else {
      updated := AssignDisambiguatedLabels(group, labels);
    }
  }

  // ---------------------------------------------------------------------------
  // Grid
  // ---------------------------------------------------------------------------

  /** The hex-offset indent: odd rows are shifted one space to the right. */
  function Indent(row: nat): string {
    if row % 2 == 1 then " " else ""
  }

  /** A tile's cell: the occupant's label, else the terrain symbol. */
  function Cell(t: Tile, labels: map<string, string>): string
    requires Occupied(t) ==> SquaddieKey(t) in labels
  {
    if Occupied(t) then labels[SquaddieKey(t)] else TerrainToSymbol(t.movementCost, t.canStop)
  }

  /** The cells of a row, left to right. */
  function Cells(row: seq<Tile>, labels: map<string, string>): (cells: seq<string>)
    requires RowLabelled(row, labels)
    ensures |cells| == |row|
    ensures forall i :: 0 <= i < |row| ==> cells[i] == Cell(row[i], labels)
  {
    seq(|row|, i requires 0 <= i < |row| => Cell(row[i], labels))
  }

  /** Grid line `r`: the indent, then the cells separated by single spaces. */
  function GridLine(row: seq<Tile>, r: nat, labels: map<string, string>): string
    requires RowLabelled(row, labels)
  {
    Indent(r) + Join(Cells(row, labels), " ")
  }

  /** The grid: one line per map row, `height` in all. */
  function GridLines(overview: MapOverview, labels: map<string, string>): (lines: seq<string>)
    requires overview.height <= |overview.tiles| && Labelled(overview.tiles, labels)
    ensures |lines| == overview.height
    ensures forall r :: 0 <= r < |lines| ==> lines[r] == GridLine(overview.tiles[r], r, labels)
  {
    seq(overview.height, r requires 0 <= r < overview.height => GridLine(overview.tiles[r], r, labels))
  }

  method RenderGridLines(overview: MapOverview, labels: map<string, string>) returns (lines: seq<string>)
    requires overview.height <= |overview.tiles|
    requires Labelled(overview.tiles, labels)
    ensures lines == GridLines(overview, labels)
  {
    lines := [];
    var row := 0;
    while row < overview.height
      invariant 0 <= row <= overview.height
      invariant |lines| == row
      invariant forall r :: 0 <= r < row ==> lines[r] == GridLine(overview.tiles[r], r, labels)
    {
      var indent := if row % 2 == 1 then " " else "";
      assert RowLabelled(overview.tiles[row], labels);
      var tileCells := Cells(overview.tiles[row], labels);
      var line := indent + Join(tileCells, " ");
      assert line == GridLine(overview.tiles[row], row, labels);
      lines := lines + [line];
      row := row + 1;
    }
  }

  /** A cell holds no space when no label does. */
  lemma CellNoSpace(t: Tile, labels: map<string, string>)
    requires Occupied(t) ==> SquaddieKey(t) in labels
    requires forall k :: k in labels ==> ' ' !in labels[k]
    ensures ' ' !in Cell(t, labels)
  {
    if !Occupied(t) {
      var sym := TerrainToSymbol(t.movementCost, t.canStop);
      assert sym == "." || sym == "~" || sym == "_" || sym == "#";
    }
  }

  /** The cells joined by single spaces split back into the cells. */
  lemma CellsReadBack(row: seq<Tile>, labels: map<string, string>)
    requires |row| > 0 && RowLabelled(row, labels)
    requires forall k :: k in labels ==> ' ' !in labels[k]
    ensures Split(Join(Cells(row, labels), " "), ' ') == Cells(row, labels)
  {
    var cells := Cells(row, labels);
    forall i | 0 <= i < |cells| ensures ' ' !in cells[i] {
      CellNoSpace(row[i], labels);
    }
    SplitJoin(cells, ' ');
  }

  /** Splitting a grid line at spaces gives back the row's cells (after one empty piece for the
      indent of an odd row), provided no label holds a space. */
  lemma GridLineReadsBack(row: seq<Tile>, r: nat, labels: map<string, string>)
    requires |row| > 0 && RowLabelled(row, labels)
    requires forall k :: k in labels ==> ' ' !in labels[k]
    ensures Split(GridLine(row, r, labels), ' ') == (if r % 2 == 1 then [""] else []) + Cells(row, labels)
  {
    var cells := Cells(row, labels);
    var joined := Join(cells, " ");
    assert Split(joined, ' ') == cells by {
      CellsReadBack(row, labels);
    }
    if r % 2 == 1 {
      assert GridLine(row, r, labels) == [] + [' '] + joined;
      assert Split([] + [' '] + joined, ' ') == Split([], ' ') + Split(joined, ' ') by {
        SplitAtSeparator([], ' ', joined);
      }
    } else {
      assert GridLine(row, r, labels) == joined;
    }
  }

  // ---------------------------------------------------------------------------
  // Legend
  // ---------------------------------------------------------------------------

  /** The fixed terrain legend, introduced by a blank line. */
  function RenderLegend(): (lines: seq<string>)
    ensures |lines| == 6 && lines[0] == ""
  {
    [
      "",
      "Legend:",
      "  . = Normal terrain",
      "  ~ = Rough terrain",
      "  _ = Pit (cannot stop)",
      "  # = Wall (impassable)"
    ]
  }

  /** Every symbol the grid can show is explained by a legend line `"  <symbol> = ..."`. */
  lemma LegendExplainsEverySymbol(movementCost: Option<int>, canStop: bool)
    ensures exists i :: 2 <= i < |RenderLegend()| && RenderLegend()[i][..5] == "  " + TerrainToSymbol(movementCost, canStop) + " ="
  {
    var legend := RenderLegend();
    var sym := TerrainToSymbol(movementCost, canStop);
    if sym == "." {
      assert legend[2][..5] == "  " + sym + " =";
    } else if sym == "~" {
      assert legend[3][..5] == "  " + sym + " =";
    } else if sym == "_" {
      assert legend[4][..5] == "  " + sym + " =";
    } else {
      assert legend[5][..5] == "  " + sym + " =";
    }
  }

  // ---------------------------------------------------------------------------
  // Squaddie list
  // ---------------------------------------------------------------------------

  /** Every tile of the run is occupied and its occupant has a label. */
  predicate AllLabelled(ts: seq<Tile>, labels: map<string, string>) {
    forall i :: 0 <= i < |ts| ==> Occupied(ts[i]) && SquaddieKey(ts[i]) in labels
  }

  /** `"  <label> = <id> (<row>,<col>)"`, with the tile's own coordinate. */
  function ListLine(t: Tile, labels: map<string, string>): string
    requires Occupied(t) && SquaddieKey(t) in labels
  {
    "  " + labels[SquaddieKey(t)] + " = " + SquaddieKey(t) + " (" + IntToString(t.row) + "," + IntToString(t.col) + ")"
  }

  /** One listing line per tile of the run, in order. */
  function ListLines(ts: seq<Tile>, labels: map<string, string>): (lines: seq<string>)
    requires AllLabelled(ts, labels)
    ensures |lines| == |ts|
    ensures forall i :: 0 <= i < |ts| ==> lines[i] == ListLine(ts[i], labels)
  {
    if ts == [] then [] else ListLines(ts[..|ts| - 1], labels) + [ListLine(ts[|ts| - 1], labels)]
  }

  lemma ListLinesSnoc(ts: seq<Tile>, t: Tile, labels: map<string, string>)
    requires AllLabelled(ts, labels) && Occupied(t) && SquaddieKey(t) in labels
    ensures AllLabelled(ts + [t], labels)
    ensures ListLines(ts + [t], labels) == ListLines(ts, labels) + [ListLine(t, labels)]
  {
    assert (ts + [t])[..|ts|] == ts;
  }

  /** The scan of a labelled map is labelled. */
  lemma ScanLabelled(tiles: seq<seq<Tile>>, labels: map<string, string>)
    requires Labelled(tiles, labels)
    ensures AllLabelled(OccupiedTiles(tiles), labels)
  {
    var ts := OccupiedTiles(tiles);
    OccupiedTilesMembers(tiles);
    forall i | 0 <= i < |ts| ensures Occupied(ts[i]) && SquaddieKey(ts[i]) in labels {
      assert ts[i] in ts;
      var r :| 0 <= r < |tiles| && ts[i] in tiles[r];
      var c :| 0 <= c < |tiles[r]| && tiles[r][c] == ts[i];
      assert RowLabelled(tiles[r], labels);
    }
  }

  /** The squaddie listing: nothing when no squaddie has a label, else a heading and one line
      per occupied tile in row-major order. */
  function SquaddieList(tiles: seq<seq<Tile>>, labels: map<string, string>): seq<string>
    requires Labelled(tiles, labels)
  {
    ScanLabelled(tiles, labels);
    if |labels| == 0 then [] else ["Squaddies:"] + ListLines(OccupiedTiles(tiles), labels)
  }

  /** A tile found by the scan is labelled when the map is. */
  lemma ScannedTileLabelled(tiles: seq<seq<Tile>>, r: nat, t: Tile, labels: map<string, string>)
    requires Labelled(tiles, labels) && r < |tiles| && t in tiles[r] && Occupied(t)
    ensures SquaddieKey(t) in labels
  {
    var c :| 0 <= c < |tiles[r]| && tiles[r][c] == t;
    assert RowLabelled(tiles[r], labels);
  }

  /** The scan of the first `r` rows and `c` tiles of row `r` is labelled. */
  lemma ScanPrefixLabelled(tiles: seq<seq<Tile>>, r: nat, c: nat, labels: map<string, string>)
    requires Labelled(tiles, labels) && r < |tiles| && c <= |tiles[r]|
    ensures AllLabelled(OccupiedTiles(tiles[..r]) + RowOccupied(tiles[r][..c]), labels)
  {
    var done := OccupiedTiles(tiles[..r]);
    var part := RowOccupied(tiles[r][..c]);
    OccupiedTilesMembers(tiles[..r]);
    forall i | 0 <= i < |done| ensures SquaddieKey(done[i]) in labels {
      assert done[i] in done;
      var r' :| 0 <= r' < r && done[i] in tiles[..r][r'];
      ScannedTileLabelled(tiles, r', done[i], labels);
    }
    forall i | 0 <= i < |part| ensures SquaddieKey(part[i]) in labels {
      var k :| 0 <= k < c && tiles[r][..c][k] == part[i];
      assert part[i] in tiles[r];
      ScannedTileLabelled(tiles, r, part[i], labels);
    }
  }

  /** The listing after the first `r` rows of the scan. */
  function Listed(tiles: seq<seq<Tile>>, r: nat, labels: map<string, string>): seq<string>
    requires Labelled(tiles, labels) && r <= |tiles|
  {
    ScanLabelled(tiles[..r], labels);
    ["Squaddies:"] + ListLines(OccupiedTiles(tiles[..r]), labels)
  }

  /** The listing after the first `r` rows and the first `c` tiles of row `r`. */
  function ListedRow(tiles: seq<seq<Tile>>, r: nat, c: nat, labels: map<string, string>): seq<string>
    requires Labelled(tiles, labels) && r < |tiles| && c <= |tiles[r]|
  {
    ScanPrefixLabelled(tiles, r, c, labels);
    ["Squaddies:"] + ListLines(OccupiedTiles(tiles[..r]) + RowOccupied(tiles[r][..c]), labels)
  }

  lemma ListedRowStart(tiles: seq<seq<Tile>>, r: nat, labels: map<string, string>)
    requires Labelled(tiles, labels) && r < |tiles|
    ensures ListedRow(tiles, r, 0, labels) == Listed(tiles, r, labels)
  {
    assert tiles[r][..0] == [];
    assert OccupiedTiles(tiles[..r]) + RowOccupied(tiles[r][..0]) == OccupiedTiles(tiles[..r]);
  }

  lemma ListedRowStep(tiles: seq<seq<Tile>>, r: nat, c: nat, labels: map<string, string>)
    requires Labelled(tiles, labels) && r < |tiles| && c < |tiles[r]|
    ensures Occupied(tiles[r][c]) ==> SquaddieKey(tiles[r][c]) in labels
    ensures ListedRow(tiles, r, c + 1, labels)
         == ListedRow(tiles, r, c, labels)
            + (if Occupied(tiles[r][c]) then [ListLine(tiles[r][c], labels)] else [])
  {
    var t := tiles[r][c];
    var seen := OccupiedTiles(tiles[..r]) + RowOccupied(tiles[r][..c]);
    ScanPrefixLabelled(tiles, r, c, labels);
    ScanStep(tiles, r, c);
    if Occupied(t) {
      ScannedTileLabelled(tiles, r, t, labels);
      ListLinesSnoc(seen, t, labels);
    } else {
      assert seen + [] == seen;
    }
  }

  lemma ListedRowDone(tiles: seq<seq<Tile>>, r: nat, labels: map<string, string>)
    requires Labelled(tiles, labels) && r < |tiles|
    ensures ListedRow(tiles, r, |tiles[r]|, labels) == Listed(tiles, r + 1, labels)
  {
    ScanRowDone(tiles, r);
  }

  method RenderSquaddieList(overview: MapOverview, labels: map<string, string>) returns (lines: seq<string>)
    requires Labelled(overview.tiles, labels)
    ensures lines == SquaddieList(overview.tiles, labels)
  {
    if |labels| == 0 {
      return [];
    }
    lines := ["Squaddies:"];
    var tiles := overview.tiles;
    var r := 0;
    while r < |tiles|
      invariant 0 <= r <= |tiles|
      invariant lines == Listed(tiles, r, labels)
    {
      var row := tiles[r];
      var c := 0;
      ListedRowStart(tiles, r, labels);
      while c < |row|
        invariant 0 <= c <= |row|
        invariant lines == ListedRow(tiles, r, c, labels)
      {
        var tile := row[c];
        ListedRowStep(tiles, r, c, labels);
        if tile.squaddie.Some? {
          var id := tile.squaddie.value.outOfBattleId;
          var squaddieLabel := labels[id];
          lines := lines + ["  " + squaddieLabel + " = " + id + " (" + IntToString(tile.row) + "," + IntToString(tile.col) + ")"];
        }
        c := c + 1;
      }
      ListedRowDone(tiles, r, labels);
      r := r + 1;
    }
    assert tiles[..|tiles|] == tiles;
  }

  // ---------------------------------------------------------------------------
  // The whole map
  // ---------------------------------------------------------------------------

  function Header(overview: MapOverview): string {
    "Map: " + NatToString(overview.width) + " columns x " + NatToString(overview.height) + " rows"
  }

  /** The lines of the rendered map: header, grid, legend, squaddie listing. */
  function MapLines(overview: MapOverview): seq<string>
    requires overview.height <= |overview.tiles| && AllNonEmpty(ScanIds(overview.tiles))
  {
    LabelsCoverScan(overview.tiles);
    var labels := Labels(ScanIds(overview.tiles));
    [Header(overview)] + GridLines(overview, labels) + RenderLegend() + SquaddieList(overview.tiles, labels)
  }

  /** A map with no squaddie gets an empty label map; otherwise the map is non-empty. */
  lemma LabelsEmptyIff(ids: seq<string>)
    requires AllNonEmpty(ids)
    ensures |Labels(ids)| == 0 <==> |ids| == 0
  {
    LabelsDomain(ids);
    if |ids| == 0 {
      assert Labels(ids) == map[];
    } else {
      assert ids[0] in Labels(ids).Keys;
    }
  }

  /** The rendered map has one header line, one line per map row, six legend lines and, when
      some tile is occupied, a heading and one line per occupied tile. */
  lemma MapLineCount(overview: MapOverview)
    requires overview.height <= |overview.tiles| && AllNonEmpty(ScanIds(overview.tiles))
    ensures var occupied := |OccupiedTiles(overview.tiles)|;
      |MapLines(overview)| == 1 + overview.height + 6 + (if occupied == 0 then 0 else 1 + occupied)
  {
    LabelsEmptyIff(ScanIds(overview.tiles));
  }

  // ---------------------------------------------------------------------------
  // Reading the rendered map back
  // ---------------------------------------------------------------------------

  /** A decimal number is one line. */
  lemma NatToStringOneLine(n: nat)
    ensures '\n' !in NatToString(n)
  {
    var s := NatToString(n);
    assert forall i :: 0 <= i < |s| ==> s[i] != '\n';
  }

  /** A label of a group whose ids hold no line feed holds none either: the key, a candidate
      character, or the first character and a decimal index. */
  lemma GroupLabelOneLine(g: seq<string>, c: char, i: nat)
    requires AllNonEmpty(g) && NoNewline(g) && c != '\n' && i < |g|
    ensures '\n' !in GroupLabels(g, c)[i]
  {
    if |g| != 1 {
      var id := g[i];
      assert '\n' !in id;
      match FirstDistinctOffset(g)
      case Some(k) =>
        assert GroupLabels(g, c)[i] == [Candidate(id, k)];
      case None =>
        NatToStringOneLine(i);
        assert GroupLabels(g, c)[i] == [FirstChar(id)] + NatToString(i);
        InConcat('\n', [FirstChar(id)], NatToString(i));
    }
  }

  /** No label holds a line feed when no id does. */
  lemma LabelOneLine(ids: seq<string>, id: string)
    requires AllNonEmpty(ids) && Distinct(ids) && NoNewline(ids)
    requires id in Labels(ids)
    ensures '\n' !in Labels(ids)[id]
  {
    LabelsDomain(ids);
    var k :| 0 <= k < |ids| && ids[k] == id;
    assert '\n' !in id;
    var c := FirstChar(id);
    GroupMembers(ids, c);
    var g := Group(ids, c);
    assert id in g;
    var i :| 0 <= i < |g| && g[i] == id;
    forall j | 0 <= j < |g| ensures '\n' !in g[j] {
      assert g[j] in g;
      var m :| 0 <= m < |ids| && ids[m] == g[j];
    }
    LabelOfGroupMember(ids, c, i);
    GroupLabelOneLine(g, c, i);
  }

  /** The header is one line. */
  lemma HeaderOneLine(overview: MapOverview)
    ensures '\n' !in Header(overview)
  {
    var w, h := NatToString(overview.width), NatToString(overview.height);
    NatToStringOneLine(overview.width);
    NatToStringOneLine(overview.height);
    HeaderWordsOneLine();
    InConcat('\n', "Map: ", w);
    InConcat('\n', "Map: " + w, " columns x ");
    InConcat('\n', "Map: " + w + " columns x ", h);
    InConcat('\n', "Map: " + w + " columns x " + h, " rows");
  }

  lemma HeaderWordsOneLine()
    ensures '\n' !in "Map: " && '\n' !in " columns x " && '\n' !in " rows"
  {
  }

  /** A grid line is one line when no label holds a line feed. */
  lemma GridLineOneLine(row: seq<Tile>, r: nat, labels: map<string, string>)
    requires RowLabelled(row, labels)
    requires forall k :: k in labels ==> '\n' !in labels[k]
    ensures '\n' !in GridLine(row, r, labels)
  {
    var cells := Cells(row, labels);
    forall i | 0 <= i < |cells| ensures '\n' !in cells[i] {
      if !Occupied(row[i]) {
        var sym := TerrainToSymbol(row[i].movementCost, row[i].canStop);
        assert sym == "." || sym == "~" || sym == "_" || sym == "#";
      }
    }
    assert '\n' !in " " && '\n' !in Indent(r);
    JoinAvoids(cells, " ", '\n');
    InConcat('\n', Indent(r), Join(cells, " "));
  }

  lemma LegendOneLine()
    ensures NoNewline(RenderLegend())
  {
  }

  /** A listing line is one line when its label and id are. */
  lemma ListLineOneLine(t: Tile, labels: map<string, string>)
    requires Occupied(t) && SquaddieKey(t) in labels
    requires '\n' !in labels[SquaddieKey(t)] && '\n' !in SquaddieKey(t)
    ensures '\n' !in ListLine(t, labels)
  {
    var l, id := labels[SquaddieKey(t)], SquaddieKey(t);
    var r, c := IntToString(t.row), IntToString(t.col);
    ListWordsOneLine();
    InConcat('\n', "  ", l);
    InConcat('\n', "  " + l, " = ");
    InConcat('\n', "  " + l + " = ", id);
    InConcat('\n', "  " + l + " = " + id, " (");
    InConcat('\n', "  " + l + " = " + id + " (", r);
    InConcat('\n', "  " + l + " = " + id + " (" + r, ",");
    InConcat('\n', "  " + l + " = " + id + " (" + r + ",", c);
    InConcat('\n', "  " + l + " = " + id + " (" + r + "," + c, ")");
  }

  lemma ListWordsOneLine()
    ensures '\n' !in "  " && '\n' !in " = " && '\n' !in " (" && '\n' !in "," && '\n' !in ")"
            && '\n' !in "Squaddies:"
  {
  }

  /** Every line of the rendered map is one line when no id holds a line feed. */
  lemma MapLinesOneLine(overview: MapOverview)
    requires overview.height <= |overview.tiles|
    requires AllNonEmpty(ScanIds(overview.tiles)) && Distinct(ScanIds(overview.tiles))
    requires NoNewline(ScanIds(overview.tiles))
    ensures NoNewline(MapLines(overview))
  {
    var tiles := overview.tiles;
    var ids := ScanIds(tiles);
    LabelsCoverScan(tiles);
    var labels := Labels(ids);
    forall k | k in labels ensures '\n' !in labels[k] {
      LabelOneLine(ids, k);
    }
    var grid := GridLines(overview, labels);
    forall r | 0 <= r < |grid| ensures '\n' !in grid[r] {
      assert RowLabelled(tiles[r], labels);
      GridLineOneLine(tiles[r], r, labels);
    }
    var list := SquaddieList(tiles, labels);
    assert NoNewline(list) by {
      if |labels| > 0 {
        var ts := OccupiedTiles(tiles);
        ScanLabelled(tiles, labels);
        var listed := ListLines(ts, labels);
        forall i | 0 <= i < |listed| ensures '\n' !in listed[i] {
          assert ids[i] == SquaddieKey(ts[i]);
          ListLineOneLine(ts[i], labels);
        }
        ListWordsOneLine();
        NoNewlineAppend(["Squaddies:"], listed);
      }
    }
    HeaderOneLine(overview);
    LegendOneLine();
    NoNewlineAppend([Header(overview)], grid);
    NoNewlineAppend([Header(overview)] + grid, RenderLegend());
    NoNewlineAppend([Header(overview)] + grid + RenderLegend(), list);
  }

  /** Read back line by line, the rendered map is the header, the grid lines, the legend and
      the listing, whenever no out-of-battle id holds a line feed (so no label does either). */
  lemma MapTextLines(overview: MapOverview)
    requires overview.height <= |overview.tiles|
    requires AllNonEmpty(ScanIds(overview.tiles)) && Distinct(ScanIds(overview.tiles))
    requires NoNewline(ScanIds(overview.tiles))
    ensures Labelled(overview.tiles, Labels(ScanIds(overview.tiles)))
    ensures var lines := Lines(JoinLines(MapLines(overview)));
            var h := overview.height;
            var occupied := |OccupiedTiles(overview.tiles)|;
            && lines == MapLines(overview)
            && |lines| == 1 + h + 6 + (if occupied == 0 then 0 else 1 + occupied)
            && lines[0] == Header(overview)
            && lines[1..1 + h] == GridLines(overview, Labels(ScanIds(overview.tiles)))
            && lines[1 + h..7 + h] == RenderLegend()
            && lines[7 + h..] == SquaddieList(overview.tiles, Labels(ScanIds(overview.tiles)))
  {
    LabelsCoverScan(overview.tiles);
    var labels := Labels(ScanIds(overview.tiles));
    var grid, list := GridLines(overview, labels), SquaddieList(overview.tiles, labels);
    assert MapLines(overview) == [Header(overview)] + grid + RenderLegend() + list;
    FourParts([Header(overview)], grid, RenderLegend(), list);
    MapLinesOneLine(overview);
    MapLineCount(overview);
    LinesOfJoinLines(MapLines(overview));
  }

  /** The four parts of a concatenation sit at their offsets. */
  lemma FourParts<T>(a: seq<T>, b: seq<T>, c: seq<T>, d: seq<T>)
    ensures var s, i, j, k := a + b + c + d, |a|, |a| + |b|, |a| + |b| + |c|;
            && s[..i] == a && s[i..j] == b && s[j..k] == c && s[k..] == d
  {
  }

  method RenderMap(overview: MapOverview) returns (text: string)
    requires overview.height <= |overview.tiles|
    requires AllNonEmpty(ScanIds(overview.tiles))
    ensures text == JoinLines(MapLines(overview))
  {
    var squaddieLabels := BuildSquaddieLabels(overview);
    var header := "Map: " + NatToString(overview.width) + " columns x " + NatToString(overview.height) + " rows";
    var gridLines := RenderGridLines(overview, squaddieLabels);
    var legend := RenderLegend();
    var squaddieList := RenderSquaddieList(overview, squaddieLabels);
    text := JoinLines([header] + gridLines + legend + squaddieList);
  }
}
