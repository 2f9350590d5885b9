/** The discovery cache of the controllers (pkg/controllerrestmapper): group-versions are discovered
    once and remembered, and a mapping is looked up version by version.

    A discovery source answers the n-th question about a group-version; it may change its mind, so the
    question number is part of the model.
 */
module Discovery {
  import opened Text

  datatype GroupVersion = GroupVersion(group: string, version: string)

  datatype APIResource = APIResource(name: string, kind: string, namespaced: bool)

  datatype Scope = Root | Namespace

  datatype CachedGVR = CachedGVR(resource: string, scope: Scope)

  type Kinds = map<string, CachedGVR>

  datatype Answer = Resources(list: seq<APIResource>) | NoMatch | Failure

  type Source = (nat, GroupVersion) -> Answer

  datatype Mapping = Mapping(gv: GroupVersion, kind: string, gvr: CachedGVR)

  /** One group-version: a mapping, nothing, or the error of the discovery call. */
  datatype Found = Here(mapping: Mapping) | Nowhere | Broken

  /** The group-versions known, each with its kinds once they were fetched. */
  type Cache = map<GroupVersion, Option<Kinds>>

  datatype State = State(cache: Cache, asked: nat)

  /* ---------- the index of one answer ---------- */

  predicate IsSubresource(r: APIResource) {
    '/' in r.name
  }

  function Entry(r: APIResource): CachedGVR {
    CachedGVR(r.name, if r.namespaced then Namespace else Root)
  }

  /** The last resource, not a subresource, that an answer lists for a kind. */
  function Index(list: seq<APIResource>): Kinds {
    if list == [] then map[]
    else
      var front, last := Index(list[..|list| - 1]), list[|list| - 1];
      if IsSubresource(last) then front else front[last.kind := Entry(last)]
  }

  predicate Provides(list: seq<APIResource>, kind: string, i: int) {
    0 <= i < |list| && list[i].kind == kind && '/' !in list[i].name
  }

  ghost predicate ProvidesLast(list: seq<APIResource>, kind: string, i: int) {
    Provides(list, kind, i) && forall j :: Provides(list, kind, j) ==> j <= i
  }

  /** The entry has the name and the scope of resource i. */
  predicate Describes(gvr: CachedGVR, list: seq<APIResource>, i: int) {
    0 <= i < |list| && gvr.resource == list[i].name && gvr.scope == if list[i].namespaced then Namespace else Root
  }

  /** A kind is indexed exactly when some resource that is no subresource provides it, and then with the
      name and scope of the last that does. */
  lemma {:induction false} IndexIsLast(list: seq<APIResource>, kind: string)
    ensures kind in Index(list) <==> exists i :: Provides(list, kind, i)
    ensures kind in Index(list) ==> exists i :: ProvidesLast(list, kind, i) && Describes(Index(list)[kind], list, i)
  {
    if list != [] {
      var n := |list| - 1;
      var front := list[..n];
      IndexIsLast(front, kind);
      assert forall i :: Provides(list, kind, i) <==> Provides(front, kind, i) || (i == n && Provides(list, kind, n));
      if Provides(list, kind, n) {
        assert ProvidesLast(list, kind, n) && Describes(Index(list)[kind], list, n);
      } else if kind in Index(front) {
        var i :| ProvidesLast(front, kind, i) && Describes(Index(front)[kind], front, i);
        assert ProvidesLast(list, kind, i) && Describes(Index(list)[kind], list, i);
      }
    }
  }

  /* ---------- what a lookup does ---------- */

  /** fetch: the state after it, and the kinds (empty for no match), or None for the error. */
  function Fetch(s: State, source: Source, gv: GroupVersion): (State, Option<Kinds>) {
    if gv in s.cache && s.cache[gv].Some? then (s, s.cache[gv])
    else
      var blank := s.cache[gv := None];
      match source(s.asked, gv)
      case Resources(list) => (State(blank[gv := Some(Index(list))], s.asked + 1), Some(Index(list)))
      case NoMatch => (State(blank, s.asked + 1), Some(map[]))
      case Failure => (State(blank, s.asked + 1), None)
  }

  function Pick(gv: GroupVersion, kind: string, kinds: Option<Kinds>): Found {
    if kinds.None? then Broken
    else if kind in kinds.value then Here(Mapping(gv, kind, kinds.value[kind]))
    else Nowhere
  }

  /** The scan over the requested versions. */
  function Scan(s: State, source: Source, group: string, kind: string, versions: seq<string>): (State, Found)
    decreases versions
  {
    if versions == [] then (s, Nowhere)
    else
      var gv := GroupVersion(group, versions[0]);
      var (s', kinds) := Fetch(s, source, gv);
      var found := Pick(gv, kind, kinds);
      if found.Nowhere? then Scan(s', source, group, kind, versions[1..]) else (s', found)
  }

  class ControllerRESTMapper {
    var cache: Cache
    var asked: nat

    constructor ()
      ensures cache == map[] && asked == 0
    {
      cache, asked := map[], 0;
    }

    ghost function Now(): State
      reads this
    {
      State(cache, asked)
    }

    /** cachedGroupVersion.fetch, with the loop that builds the index. */
    method FetchKinds(source: Source, gv: GroupVersion) returns (kinds: Option<Kinds>)
      requires gv in cache
      modifies this
      ensures (Now(), kinds) == Fetch(old(Now()), source, gv)
    {
      if cache[gv].Some? { return cache[gv]; }
      assert cache[gv := None] == cache;
      var answer := source(asked, gv);
      asked := asked + 1;
      match answer {
        case NoMatch => return Some(map[]);
        case Failure => return None;
        case Resources(list) =>
          var index: Kinds := map[];
          for i := 0 to |list|
            invariant index == Index(list[..i])
            invariant cache == old(cache) && asked == old(asked) + 1
          {
            assert list[..i + 1][..i] == list[..i];
            if IsSubresource(list[i]) { continue; }
            index := index[list[i].kind := Entry(list[i])];
          }
          assert list[..|list|] == list;
          cache := cache[gv := Some(index)];
          return Some(index);
      }
    }

    /** cache.findRESTMapping and cachedGroupVersion.findRESTMapping */
    method FindRESTMapping(source: Source, gv: GroupVersion, kind: string) returns (found: Found)
      modifies this
      ensures var (s, kinds) := Fetch(old(Now()), source, gv);
              Now() == s && found == Pick(gv, kind, kinds)
    {
      ghost var before := Now();
      if gv !in cache { cache := cache[gv := None]; }
      assert Fetch(before, source, gv) == Fetch(Now(), source, gv) by {
        assert before.cache[gv := None] == Now().cache[gv := None];
      }
      var kinds := FetchKinds(source, gv);
      if kinds.None? { return Broken; }
      if kind !in kinds.value { return Nowhere; }
      return Here(Mapping(gv, kind, kinds.value[kind]));
    }

    /** RESTMapping; Nowhere is the no-kind-match error. */
    method RESTMapping(source: Source, group: string, kind: string, versions: seq<string>) returns (found: Found)
      modifies this
      ensures (Now(), found) == Scan(old(Now()), source, group, kind, versions)
    {
      for i := 0 to |versions|
        invariant Scan(old(Now()), source, group, kind, versions) == Scan(Now(), source, group, kind, versions[i..])
      {
        assert versions[i..][1..] == versions[i + 1..];
        found := FindRESTMapping(source, GroupVersion(group, versions[i]), kind);
        if found != Nowhere { return; }
      }
      return Nowhere;
    }
  }

  /** What a fetch asks and remembers.  Kinds once remembered are returned without a question; otherwise
      one question is asked, and its answer is remembered exactly when it lists resources. */
  lemma FetchOutcome(s: State, source: Source, gv: GroupVersion)
    ensures var (s', kinds) := Fetch(s, source, gv);
            var known := gv in s.cache && s.cache[gv] != None;
            && (known ==> s' == s && kinds == s.cache[gv])
            && (!known ==>
                  && s'.asked == s.asked + 1 && s'.cache.Keys == s.cache.Keys + {gv}
                  && (forall other | other in s.cache && other != gv :: s'.cache[other] == s.cache[other])
                  && match source(s.asked, gv)
                     case Resources(list) => s'.cache[gv] == kinds == Some(Index(list))
                     case NoMatch => s'.cache[gv] == None && kinds == Some(map[])
                     case Failure => s'.cache[gv] == None && kinds == None)
  {
  }

  /* ---------- against direct discovery ---------- */

  ghost predicate Constant(source: Source) {
    forall n, gv :: source(n, gv) == source(0, gv)
  }

  /** Asking the source itself about one group-version. */
  function Direct(source: Source, gv: GroupVersion): Option<Kinds> {
    match source(0, gv)
    case Resources(list) => Some(Index(list))
    case NoMatch => Some(map[])
    case Failure => None
  }

  /** The first requested version whose answer has the kind, or fails. */
  function DirectScan(source: Source, group: string, kind: string, versions: seq<string>): Found {
    if versions == [] then Nowhere
    else
      var gv := GroupVersion(group, versions[0]);
      var found := Pick(gv, kind, Direct(source, gv));
      if found.Nowhere? then DirectScan(source, group, kind, versions[1..]) else found
  }

  /** The answer about this version names no resource for the kind. */
  ghost predicate Silent(source: Source, gv: GroupVersion, kind: string) {
    match source(0, gv)
    case Resources(list) => forall i :: !Provides(list, kind, i)
    case NoMatch => true
    case Failure => false
  }

  /** Version v is the first whose answer is not silent. */
  ghost predicate FirstAnswer(source: Source, group: string, kind: string, versions: seq<string>, v: int) {
    && 0 <= v < |versions| && !Silent(source, GroupVersion(group, versions[v]), kind)
    && forall u :: 0 <= u < v ==> Silent(source, GroupVersion(group, versions[u]), kind)
  }

  /** The mapping is that of the last resource the answer lists for the kind. */
  ghost predicate MappedBy(m: Mapping, source: Source, gv: GroupVersion, kind: string) {
    && m.gv == gv && m.kind == kind && source(0, gv).Resources?
    && exists i :: ProvidesLast(source(0, gv).list, kind, i) && Describes(m.gvr, source(0, gv).list, i)
  }

  lemma PickDirect(source: Source, gv: GroupVersion, kind: string)
    ensures var found := Pick(gv, kind, Direct(source, gv));
            && (found == Nowhere <==> Silent(source, gv, kind))
            && (found == Broken <==> source(0, gv) == Failure)
            && (found.Here? ==> MappedBy(found.mapping, source, gv, kind))
  {
    if source(0, gv).Resources? { IndexIsLast(source(0, gv).list, kind); }
    hide Index, Provides, ProvidesLast, Describes;
  }

  /** What a direct scan returns, over what the source lists: nothing when every version is silent; else
      what the first version that is not silent says, an error or the last resource for the kind. */
  lemma {:induction false} DirectScanMeans(source: Source, group: string, kind: string, versions: seq<string>)
    ensures var found := DirectScan(source, group, kind, versions);
            && (found == Nowhere <==>
                  forall v :: 0 <= v < |versions| ==> Silent(source, GroupVersion(group, versions[v]), kind))
            && forall v | FirstAnswer(source, group, kind, versions, v) ::
                 var gv := GroupVersion(group, versions[v]);
                 if source(0, gv) == Failure then found == Broken
                 else found.Here? && MappedBy(found.mapping, source, gv, kind)
  {
    if versions != [] {
      hide Silent, MappedBy, Pick, Direct;
      var rest := versions[1..];
      PickDirect(source, GroupVersion(group, versions[0]), kind);
      DirectScanMeans(source, group, kind, rest);
      if Silent(source, GroupVersion(group, versions[0]), kind) {
        forall v | FirstAnswer(source, group, kind, versions, v)
          ensures v > 0 && FirstAnswer(source, group, kind, rest, v - 1)
        {
          assert forall u :: 0 <= u < v - 1 ==> rest[u] == versions[u + 1];
        }
        assert forall v :: 0 <= v < |rest| ==> rest[v] == versions[v + 1];
      }
    }
  }

  ghost predicate Agrees(s: State, source: Source) {
    forall gv | gv in s.cache && s.cache[gv].Some? :: s.cache[gv] == Direct(source, gv)
  }

  lemma FetchAgrees(s: State, source: Source, gv: GroupVersion)
    requires Constant(source) && Agrees(s, source)
    ensures var (s', kinds) := Fetch(s, source, gv); Agrees(s', source) && kinds == Direct(source, gv)
  {
  }

  lemma {:induction false} ScanAgrees(s: State, source: Source, group: string, kind: string, versions: seq<string>)
    requires Constant(source) && Agrees(s, source)
    ensures var (s', found) := Scan(s, source, group, kind, versions);
            Agrees(s', source) && found == DirectScan(source, group, kind, versions)
    decreases versions
  {
    if versions != [] {
      var gv := GroupVersion(group, versions[0]);
      FetchAgrees(s, source, gv);
      ScanAgrees(Fetch(s, source, gv).0, source, group, kind, versions[1..]);
    }
  }

  datatype Call = Call(group: string, kind: string, versions: seq<string>)

  /** The state after a sequence of calls, and the results in order. */
  function Run(s: State, source: Source, calls: seq<Call>): (State, seq<Found>) {
    if calls == [] then (s, [])
    else
      var (before, results) := Run(s, source, calls[..|calls| - 1]);
      var c := calls[|calls| - 1];
      var (after, found) := Scan(before, source, c.group, c.kind, c.versions);
      (after, results + [found])
  }

  /** With a source that does not change, every call of every sequence of cached calls returns what
      a direct scan of the versions returns. */
  lemma {:induction false} CachedCallsAreDirect(source: Source, calls: seq<Call>)
    requires Constant(source)
    ensures var (s, results) := Run(State(map[], 0), source, calls);
            && Agrees(s, source) && |results| == |calls|
            && forall i :: 0 <= i < |calls| ==>
                 results[i] == DirectScan(source, calls[i].group, calls[i].kind, calls[i].versions)
  {
    hide Constant, Agrees, Scan, DirectScan;
    if calls == [] {
      NothingCachedAgrees(source);
    } else {
      var front, c := calls[..|calls| - 1], calls[|calls| - 1];
      CachedCallsAreDirect(source, front);
      ScanAgrees(Run(State(map[], 0), source, front).0, source, c.group, c.kind, c.versions);
      assert forall i :: 0 <= i < |front| ==> front[i] == calls[i];
    }
  }

  lemma NothingCachedAgrees(source: Source)
    ensures Agrees(State(map[], 0), source)
  {
  }

  /* ---------- any source ---------- */

  ghost predicate Remembers(s: State, gv: GroupVersion, kinds: Kinds) {
    gv in s.cache && s.cache[gv] == Some(kinds)
  }

  lemma {:induction false} ScanRemembers(s: State, source: Source, group: string, kind: string, versions: seq<string>,
                                         gv: GroupVersion, kinds: Kinds)
    requires Remembers(s, gv, kinds)
    ensures Remembers(Scan(s, source, group, kind, versions).0, gv, kinds)
    decreases versions
  {
    if versions != [] {
      var s' := Fetch(s, source, GroupVersion(group, versions[0])).0;
      assert Remembers(s', gv, kinds);
      ScanRemembers(s', source, group, kind, versions[1..], gv, kinds);
    }
  }

  /** Whatever the source does later, a group-version once fetched keeps the same kinds over every
      sequence of calls. */
  lemma {:induction false} FetchedKindsStay(s: State, source: Source, calls: seq<Call>, gv: GroupVersion, kinds: Kinds)
    requires Remembers(s, gv, kinds)
    ensures Remembers(Run(s, source, calls).0, gv, kinds)
  {
    if calls != [] {
      var front, c := calls[..|calls| - 1], calls[|calls| - 1];
      FetchedKindsStay(s, source, front, gv, kinds);
      ScanRemembers(Run(s, source, front).0, source, c.group, c.kind, c.versions, gv, kinds);
    }
  }
}
