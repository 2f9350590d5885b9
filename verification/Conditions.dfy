/** Package conditions: the merge of requested conditions into the Kptfile and the readiness gates
    (pkg/task/generictaskhandler.go, PatchKptfile; api/porch/v1alpha1/util.go; pkg/repository/util.go).
 */
module Conditions {
  import opened Text

  datatype Condition = Condition(kind: string, status: string, reason: string, message: string)

  type Index = map<string, Condition>

  /** The statuses convertStatusToKptfile and toAPIConditionStatus know; they panic on any other. */
  predicate KnownStatus(s: string) {
    s == "True" || s == "False" || s == "Unknown"
  }

  predicate AllKnown(cs: seq<Condition>) {
    forall i :: 0 <= i < |cs| ==> KnownStatus(cs[i].status)
  }

  /** Each type with the last condition given for it. */
  function LastWins(cs: seq<Condition>): (r: Index)
    ensures forall k | k in r :: r[k].kind == k && r[k] in cs
  {
    if cs == [] then map[] else LastWins(cs[..|cs| - 1])[cs[|cs| - 1].kind := cs[|cs| - 1]]
  }

  /** Condition i is the last one of type k. */
  predicate LastAt(cs: seq<Condition>, k: string, i: int) {
    0 <= i < |cs| && cs[i].kind == k && forall j :: i < j < |cs| ==> cs[j].kind != k
  }

  /** A type is indexed exactly when some condition has it, and then by the last that does. */
  lemma {:induction false} IndexedByLast(cs: seq<Condition>, k: string)
    ensures k in LastWins(cs) <==> exists i :: LastAt(cs, k, i)
    ensures forall i | LastAt(cs, k, i) :: i < |cs| && LastWins(cs)[k] == cs[i]
  {
    if cs != [] {
      var n := |cs| - 1;
      if cs[n].kind == k {
        LastIsLast(cs, k);
      } else {
        IndexedByLast(cs[..n], k);
        LastInFront(cs, k);
      }
      hide LastAt;
    }
  }

  lemma LastIsLast(cs: seq<Condition>, k: string)
    requires cs != [] && cs[|cs| - 1].kind == k
    ensures LastAt(cs, k, |cs| - 1) && forall i | LastAt(cs, k, i) :: i == |cs| - 1
  {
  }

  lemma LastInFront(cs: seq<Condition>, k: string)
    requires cs != [] && cs[|cs| - 1].kind != k
    ensures var front := cs[..|cs| - 1];
            forall i :: LastAt(cs, k, i) <==> LastAt(front, k, i)
    ensures forall i | LastAt(cs, k, i) :: 0 <= i < |cs| - 1
  {
  }

  /** The conditions of existing types that are wanted, once each, in their order, with the wanted values. */
  function Kept(existing: seq<Condition>, wanted: Index): seq<Condition> {
    if existing == [] then []
    else if existing[0].kind in wanted then
      [wanted[existing[0].kind]] + Kept(existing[1..], wanted - {existing[0].kind})
    else Kept(existing[1..], wanted)
  }

  predicate UniqueKinds(cs: seq<Condition>) {
    forall i, j :: 0 <= i < j < |cs| ==> cs[i].kind != cs[j].kind
  }

  function Kinds(cs: seq<Condition>): set<string> {
    set c | c in cs :: c.kind
  }

  /** What a patch may produce: the kept conditions, then the new ones in any order. */
  ghost predicate IsPatch(existing: seq<Condition>, wanted: Index, final: seq<Condition>) {
    var n := |Kept(existing, wanted)|;
    && n <= |final| && final[..n] == Kept(existing, wanted)
    && UniqueKinds(final)
    && Kinds(final) == wanted.Keys
    && forall i :: 0 <= i < |final| ==> final[i].kind in wanted && wanted[final[i].kind] == final[i]
  }

  datatype Outcome = Panicked | Patched(conditions: seq<Condition>, changed: bool)

  /** The index of the requested conditions, or None for the panic on an unknown status. */
  method IndexRequested(requested: seq<Condition>) returns (r: Option<Index>)
    ensures r == if AllKnown(requested) then Some(LastWins(requested)) else None
  {
    var wanted: Index := map[];
    for i := 0 to |requested|
      invariant AllKnown(requested[..i])
      invariant wanted == LastWins(requested[..i])
    {
      if !KnownStatus(requested[i].status) { return None; }
      assert requested[..i + 1][..i] == requested[..i];
      wanted := wanted[requested[i].kind := requested[i]];
    }
    assert requested[..|requested|] == requested;
    return Some(wanted);
  }

  /** The conditions part of PatchKptfile: an index of the requested list, a pass over the existing
      list, and the rest of the index in map order. */
  method PatchConditions(existing: seq<Condition>, requested: seq<Condition>) returns (r: Outcome)
    ensures r.Panicked? <==>
              exists i :: 0 <= i < |requested| && requested[i].status !in ["True", "False", "Unknown"]
    ensures r.Patched? ==> IsPatch(existing, LastWins(requested), r.conditions)
    ensures r.Patched? ==> LastRequested(requested, r.conditions) && ExistingOrder(existing, r.conditions)
    ensures r.Patched? ==> (r.changed <==> r.conditions != existing)
  {
    UnknownStatus(requested);
    hide *;
    var index := IndexRequested(requested);
    if index.None? { return Panicked; }
    WantedKinds(requested);
    var kept, rest, changed := KeepExisting(existing, index.value);
    if rest != map[] { changed := true; }
    var final := AppendRest(index.value, rest, kept);
    PatchDone(index.value, final);
    if rest != map[] { LeftoverChanges(index.value, rest, final, existing); }
    PatchByParts(existing, index.value, final);
    PatchIsLastRequested(existing, requested, final);
    PatchKeepsOrder(existing, index.value, final);
    return Patched(final, changed);
  }

  lemma UnknownStatus(cs: seq<Condition>)
    ensures AllKnown(cs) <==> !exists i :: 0 <= i < |cs| && cs[i].status !in ["True", "False", "Unknown"]
  {
  }

  lemma WantedKinds(requested: seq<Condition>)
    ensures forall k | k in LastWins(requested) :: LastWins(requested)[k].kind == k
  {
  }

  lemma PatchByParts(existing: seq<Condition>, wanted: Index, final: seq<Condition>)
    requires var n := |Kept(existing, wanted)|; n <= |final| && final[..n] == Kept(existing, wanted)
    requires UniqueKinds(final) && Kinds(final) == wanted.Keys
    requires forall i :: 0 <= i < |final| ==> final[i].kind in wanted && wanted[final[i].kind] == final[i]
    ensures IsPatch(existing, wanted, final)
  {
  }

  /** The pass over the existing conditions. */
  method KeepExisting(existing: seq<Condition>, all: Index)
    returns (final: seq<Condition>, wanted: Index, changed: bool)
    requires forall k | k in all :: all[k].kind == k
    ensures final == Kept(existing, all) && (changed <==> final != existing)
    ensures Progress(all, wanted, final) && wanted.Keys <= all.Keys
    ensures forall j :: 0 <= j < |existing| ==> existing[j].kind !in wanted
  {
    hide *;
    ProgressStart(all);
    assert existing[0..] == existing;
    final, wanted, changed := [], all, false;
    for i := 0 to |existing|
      invariant Kept(existing, all) == final + Kept(existing[i..], wanted)
      invariant Progress(all, wanted, final) && wanted.Keys <= all.Keys
      invariant forall j :: 0 <= j < i ==> existing[j].kind !in wanted
      invariant |final| <= i
      invariant changed <==> final != existing[..i]
    {
      var kind := existing[i].kind;
      KeptStep(existing, i, wanted, final);
      ChangedStep(final, existing, i);
      if kind in wanted {
        if existing[i] != wanted[kind] { changed := true; }
        KeptChanges(final, existing, i, wanted[kind]);
        AddWanted(all, wanted, final, kind);
        final := final + [wanted[kind]];
        wanted := wanted - {kind};
      } else {
        changed := true;
      }
    }
    KeptEnd(existing, wanted);
    assert existing[..|existing|] == existing;
  }

  lemma KeptStep(existing: seq<Condition>, i: int, wanted: Index, final: seq<Condition>)
    requires 0 <= i < |existing|
    ensures var kind := existing[i].kind;
            final + Kept(existing[i..], wanted) ==
              if kind in wanted then final + [wanted[kind]] + Kept(existing[i + 1..], wanted - {kind})
              else final + Kept(existing[i + 1..], wanted)
  {
    assert existing[i..][1..] == existing[i + 1..];
  }

  lemma KeptEnd(existing: seq<Condition>, wanted: Index)
    ensures Kept(existing[|existing|..], wanted) == []
  {
  }

  /** The closing loop: the conditions no existing one matched, in map order. */
  method AppendRest(ghost all: Index, rest: Index, kept: seq<Condition>) returns (final: seq<Condition>)
    requires Progress(all, rest, kept)
    ensures Progress(all, map[], final) && |kept| <= |final| && final[..|kept|] == kept
    ensures rest == map[] ==> final == kept
  {
    hide Progress;
    final := kept;
    var wanted := rest;
    while wanted != map[]
      invariant Progress(all, wanted, final)
      invariant |kept| <= |final| && final[..|kept|] == kept
      invariant rest == map[] ==> wanted == map[] && final == kept
      decreases |wanted|
    {
      var kind :| kind in wanted;
      AddWanted(all, wanted, final, kind);
      final := final + [wanted[kind]];
      wanted := wanted - {kind};
    }
  }

  lemma ProgressStart(all: Index)
    requires forall k | k in all :: all[k].kind == k
    ensures Progress(all, all, [])
  {
  }

  lemma LeftoverChanges(all: Index, leftover: Index, final: seq<Condition>, existing: seq<Condition>)
    requires Progress(all, map[], final) && leftover != map[]
    requires forall k | k in leftover :: k in all
    requires forall j :: 0 <= j < |existing| ==> existing[j].kind !in leftover
    ensures final != existing
  {
  }

  /** Part way: the written conditions have distinct types and the wanted values, and together with
      the rest of the index they cover it. */
  ghost predicate Progress(all: Index, rest: Index, final: seq<Condition>) {
    && UniqueKinds(final)
    && (forall i :: 0 <= i < |final| ==> final[i].kind in all && all[final[i].kind] == final[i] && final[i].kind !in rest)
    && (forall k | k in rest :: k in all && rest[k] == all[k])
    && (forall k | k in all :: all[k].kind == k)
    && forall k | k in all && k !in rest :: all[k] in final
  }

  lemma AddWanted(all: Index, rest: Index, final: seq<Condition>, kind: string)
    requires Progress(all, rest, final) && kind in rest
    ensures Progress(all, rest - {kind}, final + [rest[kind]])
    ensures kind in all && rest[kind] == all[kind]
  {
  }

  lemma KeptChanges(final: seq<Condition>, existing: seq<Condition>, i: int, c: Condition)
    requires 0 <= i < |existing| && |final| <= i
    ensures final + [c] == existing[..i + 1] <==> final == existing[..i] && c == existing[i]
  {
    assert existing[..i + 1] == existing[..i] + [existing[i]];
    if final + [c] == existing[..i + 1] { assert final == (final + [c])[..|final|]; }
  }

  lemma ChangedStep(final: seq<Condition>, existing: seq<Condition>, i: int)
    requires 0 <= i < |existing| && |final| <= i
    ensures final != existing[..i + 1]
  {
  }

  lemma PatchDone(all: Index, final: seq<Condition>)
    requires Progress(all, map[], final)
    ensures Kinds(final) == all.Keys && UniqueKinds(final)
    ensures forall i :: 0 <= i < |final| ==> final[i].kind in all && all[final[i].kind] == final[i]
  {
  }

  /* ---------- what a patch means ---------- */

  /** c is the last condition requested for its type. */
  ghost predicate IsLastRequest(requested: seq<Condition>, c: Condition) {
    exists j :: LastAt(requested, c.kind, j) && requested[j] == c
  }

  /** Each requested type once, with the last condition requested for it, and nothing else. */
  ghost predicate LastRequested(requested: seq<Condition>, final: seq<Condition>) {
    UniqueKinds(final) && forall c :: c in final <==> IsLastRequest(requested, c)
  }

  lemma PatchIsLastRequested(existing: seq<Condition>, requested: seq<Condition>, final: seq<Condition>)
    requires IsPatch(existing, LastWins(requested), final)
    ensures LastRequested(requested, final)
  {
    hide LastWins, Kept;
    forall c ensures c in final <==> IsLastRequest(requested, c) {
      LastRequestIndexed(requested, c);
      if IsLastRequest(requested, c) {
        assert c.kind in Kinds(final);
        var d :| d in final && d.kind == c.kind;
        assert d == LastWins(requested)[c.kind];
      }
    }
  }

  lemma LastRequestIndexed(requested: seq<Condition>, c: Condition)
    ensures IsLastRequest(requested, c) <==> c.kind in LastWins(requested) && LastWins(requested)[c.kind] == c
  {
    IndexedByLast(requested, c.kind);
    hide LastWins;
  }

  /** Condition i is the first one of type k. */
  predicate FirstAt(cs: seq<Condition>, k: string, i: int) {
    0 <= i < |cs| && cs[i].kind == k && forall j :: 0 <= j < i ==> cs[j].kind != k
  }

  /** The conditions stand in the order in which their types first stand in the existing list. */
  ghost predicate OrderedBy(existing: seq<Condition>, cs: seq<Condition>) {
    forall i, j, p, q :: 0 <= i < j < |cs| && FirstAt(existing, cs[i].kind, p) && FirstAt(existing, cs[j].kind, q) ==> p < q
  }

  /** Types that were there before come first, in the order in which they first stood there. */
  ghost predicate ExistingOrder(existing: seq<Condition>, final: seq<Condition>) {
    && (forall i, j :: 0 <= i < j < |final| && final[j].kind in Kinds(existing) ==> final[i].kind in Kinds(existing))
    && OrderedBy(existing, final)
  }

  lemma {:induction false} KeptOrder(existing: seq<Condition>, wanted: Index)
    requires forall k | k in wanted :: wanted[k].kind == k
    ensures Kinds(Kept(existing, wanted)) == wanted.Keys * Kinds(existing) && OrderedBy(existing, Kept(existing, wanted))
  {
    if existing != [] {
      var kind, rest := existing[0].kind, existing[1..];
      var less := wanted - {kind};
      KindsSplit(existing);
      if kind in wanted {
        KeptOrder(rest, less);
        KindsPrepend(wanted[kind], Kept(rest, less));
        OrderedCons(existing, wanted[kind], Kept(rest, less));
      } else {
        KeptOrder(rest, wanted);
        OrderedSkip(existing, Kept(rest, wanted));
      }
      hide OrderedBy, Kinds;
    }
  }

  lemma OrderedSkip(existing: seq<Condition>, cs: seq<Condition>)
    requires existing != [] && OrderedBy(existing[1..], cs) && existing[0].kind !in Kinds(cs)
    ensures OrderedBy(existing, cs)
  {
    hide FirstAt;
    forall i, p | 0 <= i < |cs| && FirstAt(existing, cs[i].kind, p) ensures FirstAt(existing[1..], cs[i].kind, p - 1) {
      assert cs[i].kind in Kinds(cs);
      FirstInRest(existing, cs[i].kind, p);
    }
    hide Kinds;
  }

  lemma OrderedCons(existing: seq<Condition>, c: Condition, cs: seq<Condition>)
    requires existing != [] && c.kind == existing[0].kind && OrderedBy(existing[1..], cs) && c.kind !in Kinds(cs)
    ensures OrderedBy(existing, [c] + cs)
  {
    OrderedSkip(existing, cs);
    hide FirstAt;
    forall p | FirstAt(existing, c.kind, p) ensures p == 0 {
      FirstIsFirst(existing, c.kind, p);
    }
    forall j, q | 0 <= j < |cs| && FirstAt(existing, cs[j].kind, q) ensures q > 0 {
      assert cs[j].kind in Kinds(cs);
      FirstInRest(existing, cs[j].kind, q);
    }
    hide Kinds;
    forall i, j, p, q | 0 <= i < j < |[c] + cs| && FirstAt(existing, ([c] + cs)[i].kind, p)
                        && FirstAt(existing, ([c] + cs)[j].kind, q)
      ensures p < q
    {
      assert ([c] + cs)[j] == cs[j - 1];
      if i > 0 { assert ([c] + cs)[i] == cs[i - 1]; }
    }
  }

  lemma FirstIsFirst(cs: seq<Condition>, k: string, p: int)
    requires cs != [] && cs[0].kind == k && FirstAt(cs, k, p)
    ensures p == 0
  {
  }

  lemma FirstInRest(cs: seq<Condition>, k: string, p: int)
    requires cs != [] && cs[0].kind != k && FirstAt(cs, k, p)
    ensures p > 0 && FirstAt(cs[1..], k, p - 1)
  {
    assert forall j :: 0 <= j < p - 1 ==> cs[1..][j] == cs[j + 1];
  }

  lemma KindsSplit(cs: seq<Condition>)
    requires cs != []
    ensures Kinds(cs) == {cs[0].kind} + Kinds(cs[1..])
  {
  }

  lemma KindsPrepend(c: Condition, cs: seq<Condition>)
    ensures Kinds([c] + cs) == {c.kind} + Kinds(cs)
  {
    KindsSplit([c] + cs);
    assert ([c] + cs)[1..] == cs;
  }

  lemma PatchKeepsOrder(existing: seq<Condition>, wanted: Index, final: seq<Condition>)
    requires IsPatch(existing, wanted, final) && forall k | k in wanted :: wanted[k].kind == k
    ensures ExistingOrder(existing, final)
  {
    KeptOrder(existing, wanted);
    hide Kept, FirstAt;
    var n := |Kept(existing, wanted)|;
    forall i | 0 <= i < |final| ensures final[i].kind in Kinds(existing) <==> i < n {
      KeptComeFirst(final, n, i);
    }
    forall i, p | 0 <= i < |final| && FirstAt(existing, final[i].kind, p) ensures i < n {
      FirstIsThere(existing, final[i].kind, p);
    }
    assert forall i :: 0 <= i < n ==> final[i] == final[..n][i];
    hide Kinds;
  }

  lemma KeptComeFirst(final: seq<Condition>, n: int, i: int)
    requires 0 <= n <= |final| && UniqueKinds(final) && 0 <= i < |final|
    ensures final[i].kind in Kinds(final[..n]) <==> i < n
  {
    if i < n { assert final[i] == final[..n][i]; }
  }

  lemma FirstIsThere(cs: seq<Condition>, k: string, p: int)
    requires FirstAt(cs, k, p)
    ensures k in Kinds(cs)
  {
    assert cs[p] in cs;
  }

  /** Any patch of the requested conditions is indexed exactly as the request: last one wins. */
  lemma PatchIndex(existing: seq<Condition>, wanted: Index, final: seq<Condition>)
    requires IsPatch(existing, wanted, final)
    ensures LastWins(final) == wanted
  {
    IndexOfUnique(final, wanted);
    assert LastWins(final).Keys == wanted.Keys by {
      forall k | k in wanted ensures k in LastWins(final) {
        assert k in Kinds(final);
        var c :| c in final && c.kind == k;
        KindIndexed(final, c);
      }
    }
  }

  lemma {:induction false} KindIndexed(cs: seq<Condition>, c: Condition)
    requires c in cs
    ensures c.kind in LastWins(cs)
  {
    if c != cs[|cs| - 1] { KindIndexed(cs[..|cs| - 1], c); }
  }

  lemma IndexOfUnique(cs: seq<Condition>, wanted: Index)
    requires forall i :: 0 <= i < |cs| ==> cs[i].kind in wanted && wanted[cs[i].kind] == cs[i]
    ensures forall k | k in LastWins(cs) :: k in wanted && LastWins(cs)[k] == wanted[k]
  {
  }

  lemma {:induction false} KeptOfPatched(existing: seq<Condition>, wanted: Index)
    requires UniqueKinds(existing)
    requires forall i :: 0 <= i < |existing| ==> existing[i].kind in wanted && wanted[existing[i].kind] == existing[i]
    ensures Kept(existing, wanted) == existing
  {
    if existing != [] {
      var rest := existing[1..];
      assert forall i :: 0 <= i < |rest| ==> rest[i] == existing[i + 1];
      KeptOfPatched(rest, wanted - {existing[0].kind});
      assert [existing[0]] + rest == existing;
    }
  }

  lemma {:induction false} KindsOfUnique(cs: seq<Condition>)
    requires UniqueKinds(cs)
    ensures |Kinds(cs)| == |cs|
  {
    if cs == [] {
      assert Kinds(cs) == {};
    } else {
      var n := |cs| - 1;
      var front := cs[..n];
      KindsOfUnique(front);
      assert cs == front + [cs[n]];
      assert Kinds(cs) == Kinds(front) + {cs[n].kind};
      assert cs[n].kind !in Kinds(front);
    }
  }

  /** A second patch with the same request changes nothing, whatever order the first one used. */
  lemma SecondPatchChangesNothing(existing: seq<Condition>, wanted: Index, final: seq<Condition>, again: seq<Condition>)
    requires IsPatch(existing, wanted, final) && IsPatch(final, wanted, again)
    ensures again == final
  {
    KeptOfPatched(final, wanted);
    KindsOfUnique(final);
    KindsOfUnique(again);
  }

  /* ---------- readiness ---------- */

  predicate Ready(gates: seq<string>, index: Index) {
    forall i :: 0 <= i < |gates| ==> gates[i] in index && index[gates[i]].status == "True"
  }

  /** The last condition of the gate's type is there and True. */
  ghost predicate GateHolds(gate: string, conditions: seq<Condition>) {
    exists i :: LastAt(conditions, gate, i) && conditions[i].status == "True"
  }

  ghost predicate GatesHold(gates: seq<string>, conditions: seq<Condition>) {
    forall g :: 0 <= g < |gates| ==> GateHolds(gates[g], conditions)
  }

  lemma ReadyMeans(gates: seq<string>, conditions: seq<Condition>)
    ensures Ready(gates, LastWins(conditions)) <==> GatesHold(gates, conditions)
  {
    hide LastWins, LastAt;
    forall g | 0 <= g < |gates|
      ensures gates[g] in LastWins(conditions) && LastWins(conditions)[gates[g]].status == "True" <==>
                GateHolds(gates[g], conditions)
    {
      GateMeans(gates[g], conditions);
    }
    hide GateHolds;
  }

  lemma GateMeans(gate: string, conditions: seq<Condition>)
    ensures gate in LastWins(conditions) && LastWins(conditions)[gate].status == "True" <==> GateHolds(gate, conditions)
  {
    IndexedByLast(conditions, gate);
    hide LastWins;
  }

  lemma NothingIndexed()
    ensures LastWins([]) == map[]
  {
  }

  lemma OneMoreIndexed(cs: seq<Condition>, i: int)
    requires 0 <= i < |cs|
    ensures LastWins(cs[..i + 1]) == LastWins(cs[..i])[cs[i].kind := cs[i]]
  {
    assert cs[..i + 1][..i] == cs[..i];
  }

  /** PackageRevisionIsReady: an index of the conditions, then the gates one by one. */
  method PackageRevisionIsReady(gates: seq<string>, conditions: seq<Condition>) returns (ready: bool)
    ensures ready <==> GatesHold(gates, conditions)
  {
    ReadyMeans(gates, conditions);
    hide GatesHold, LastWins;
    var index: Index := map[];
    NothingIndexed();
    for i := 0 to |conditions|
      invariant index == LastWins(conditions[..i])
    {
      OneMoreIndexed(conditions, i);
      index := index[conditions[i].kind := conditions[i]];
    }
    assert conditions[..|conditions|] == conditions;
    for i := 0 to |gates|
      invariant Ready(gates[..i], index)
    {
      if gates[i] !in index { return false; }
      if index[gates[i]].status != "True" { return false; }
    }
    assert gates[..|gates|] == gates;
    return true;
  }

  /** ToAPIConditions: the same conditions, or None for the panic on an unknown status. */
  method ToAPIConditions(conditions: seq<Condition>) returns (r: Option<seq<Condition>>)
    ensures r == if exists i :: 0 <= i < |conditions| && conditions[i].status !in ["True", "False", "Unknown"]
                 then None else Some(conditions)
  {
    UnknownStatus(conditions);
    var out: seq<Condition> := [];
    for i := 0 to |conditions|
      invariant AllKnown(conditions[..i])
      invariant out == conditions[..i]
    {
      if !KnownStatus(conditions[i].status) { return None; }
      out := out + [conditions[i]];
    }
    assert conditions[..|conditions|] == conditions;
    return Some(out);
  }

  /** The patched Kptfile reads back without a panic, and every list of gates sees the readiness that
      the request described. */
  lemma PatchKeepsReadiness(existing: seq<Condition>, requested: seq<Condition>, final: seq<Condition>, gates: seq<string>)
    requires AllKnown(requested) && IsPatch(existing, LastWins(requested), final)
    ensures AllKnown(final)
    ensures GatesHold(gates, final) <==> GatesHold(gates, requested)
  {
    ReadyMeans(gates, final);
    ReadyMeans(gates, requested);
    hide GatesHold;
    PatchIndex(existing, LastWins(requested), final);
    forall i | 0 <= i < |final| ensures KnownStatus(final[i].status) {
      var c := LastWins(requested)[final[i].kind];
      assert c in requested && c == final[i];
    }
  }
}
