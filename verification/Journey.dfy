/** The admin API journey: a client creates and updates resources and deletes them again, newest
    first, against a store with optimistic versions and reference-protected deletes. */
module Journey {

  type Path = string

  /** `refs` are the paths of the resources this one refers to. */
  datatype Resource = Resource(version: nat, refs: set<Path>)

  type Resources = map<Path, Resource>

  datatype Answer = Done(version: nat) | NotFound | VersionConflict | Referenced

  datatype CleanupRef = CleanupRef(path: Path, version: nat)

  /** Every reference has its resource. */
  predicate SelfContained(rs: Resources) {
    forall p <- rs :: rs[p].refs <= rs.Keys
  }

  predicate IsReferenced(rs: Resources, path: Path) {
    exists q <- rs :: q != path && path in rs[q].refs
  }

  /** What the store answers to a replacement; a replacement that changes nothing keeps the version. */
  function ReplaceAnswer(rs: Resources, path: Path, expected: nat, changed: bool): Answer {
    if path !in rs then NotFound
    else if rs[path].version != expected then VersionConflict
    else Done(if changed then expected + 1 else expected)
  }

  function DeleteAnswer(rs: Resources, path: Path, expected: nat): Answer {
    if path !in rs then NotFound
    else if rs[path].version != expected then VersionConflict
    else if IsReferenced(rs, path) then Referenced
    else Done(expected)
  }

  class Store {
    var resources: Resources

    constructor (resources: Resources)
      ensures this.resources == resources
    {
      this.resources := resources;
    }

    /** The store chooses the path, so it is new. */
    method Create(path: Path, refs: set<Path>) returns (version: nat)
      requires path !in resources
      modifies this
      ensures version == 1 && resources == old(resources)[path := Resource(1, refs)]
    {
      resources := resources[path := Resource(1, refs)];
      version := 1;
    }

    /** Replaces a resource whose version is the expected one.  A stale replacement changes nothing,
        and once a replacement has gone through, the version it started from is stale. */
    method Replace(path: Path, expected: nat, refs: set<Path>, changed: bool) returns (r: Answer)
      modifies this
      ensures r == ReplaceAnswer(old(resources), path, expected, changed)
      ensures r.Done? <==> path in old(resources) && old(resources)[path].version == expected
      ensures !r.Done? || !changed ==> resources == old(resources)
      ensures r.Done? && changed ==> resources == old(resources)[path := Resource(expected + 1, refs)]
      ensures r.Done? ==> path in resources && resources[path].version == r.version
      ensures r.Done? && changed ==> forall c :: ReplaceAnswer(resources, path, expected, c) == VersionConflict
      ensures forall p <- old(resources) :: p in resources && resources[p].version >= old(resources)[p].version
      ensures SelfContained(old(resources)) && refs <= old(resources).Keys ==> SelfContained(resources)
    {
      if path !in resources {
        return NotFound;
      }
      var current := resources[path];
      if current.version != expected {
        return VersionConflict;
      }
      if !changed {
        return Done(current.version);
      }
      resources := resources[path := Resource(current.version + 1, refs)];
      return Done(current.version + 1);
    }

    /** Deletes a resource whose version is the expected one and that no other refers to.  No
        reference is ever left without its resource. */
    method Delete(path: Path, expected: nat) returns (r: Answer)
      modifies this
      ensures r == DeleteAnswer(old(resources), path, expected)
      ensures r.Done? <==>
        && path in old(resources) && old(resources)[path].version == expected
        && forall q <- old(resources) :: q != path ==> path !in old(resources)[q].refs
      ensures r == NotFound <==> path !in old(resources)
      ensures r == VersionConflict <==> path in old(resources) && old(resources)[path].version != expected
      ensures !r.Done? ==> resources == old(resources)
      ensures r.Done? ==> resources == old(resources) - {path} && forall q <- resources :: path !in resources[q].refs
      ensures old(IsReferenced(resources, path)) ==> resources == old(resources)
      ensures SelfContained(old(resources)) ==> SelfContained(resources)
    {
      if path !in resources {
        return NotFound;
      }
      if resources[path].version != expected {
        return VersionConflict;
      }
      if IsReferenced(resources, path) {
        return Referenced;
      }
      resources := resources - {path};
      return Done(expected);
    }
  }

  // ---- The journey as a trace --------------------------------------------------------------

  /** `orphans` are resources whose creation was never confirmed to the client, `unseen` those whose
      last change was not. */
  datatype World = World(resources: Resources, stack: seq<CleanupRef>, orphans: set<Path>, unseen: set<Path>)

  /** One call of the journey.  `confirmed` says whether the response reached the client and passed
      its checks; the store acts either way. */
  datatype Action =
    | Create(path: Path, refs: set<Path>, confirmed: bool)
    | Update(path: Path, expected: nat, refs: set<Path>, changed: bool, confirmed: bool)
    | TryDelete(path: Path, expected: nat)           // the deletion of a resource that is referred to

  function Paths(stack: seq<CleanupRef>): set<Path> {
    set ref <- stack :: ref.path
  }

  /** The stack after `updateCleanupVersion`: the first entry for the path is overwritten. */
  function Recorded(stack: seq<CleanupRef>, path: Path, version: nat): seq<CleanupRef> {
    if stack == [] then []
    else if stack[0].path == path then [CleanupRef(path, version)] + stack[1..]
    else [stack[0]] + Recorded(stack[1..], path, version)
  }

  /** What the journey itself guarantees about a call: it refers only to resources it knows, and
      only to older ones than the one it changes. */
  predicate Allowed(base: Resources, w: World, a: Action) {
    match a
    case Create(path, refs, _) =>
      path !in w.resources && refs <= base.Keys + Paths(w.stack)
    case Update(path, _, refs, _, _) =>
      exists i :: 0 <= i < |w.stack| && w.stack[i].path == path && refs <= base.Keys + Paths(w.stack[..i])
    case TryDelete(path, _) =>
      IsReferenced(w.resources, path)
  }

  /** The path belongs to a resource that was there before, or that one of the first `n` entries records. */
  predicate IsKnown(base: Resources, w: World, n: nat, p: Path)
    requires n <= |w.stack|
  {
    p in base || exists j :: 0 <= j < n && w.stack[j].path == p
  }

  /** A new resource may refer to whatever the journey knows, and a recorded one to whatever is older
      than it. */
  lemma AllowedMeans(base: Resources, w: World, path: Path, refs: set<Path>, confirmed: bool,
                     expected: nat, changed: bool)
    ensures Allowed(base, w, Create(path, refs, confirmed)) <==>
      path !in w.resources && forall p <- refs :: IsKnown(base, w, |w.stack|, p)
    ensures Allowed(base, w, Update(path, expected, refs, changed, confirmed)) <==>
      exists i :: 0 <= i < |w.stack| && w.stack[i].path == path && forall p <- refs :: IsKnown(base, w, i, p)
  {
    forall i: nat, p: Path | i <= |w.stack| ensures p in base.Keys + Paths(w.stack[..i]) <==> IsKnown(base, w, i, p) {
      if p in Paths(w.stack[..i]) {
        var j :| 0 <= j < i && w.stack[..i][j].path == p;
      }
      if j :| 0 <= j < i && w.stack[j].path == p { assert w.stack[..i][j] in w.stack[..i]; }
    }
    assert w.stack[..|w.stack|] == w.stack;
  }

  function Step(w: World, a: Action): World {
    match a
    case Create(path, refs, confirmed) =>
      var rs := w.resources[path := Resource(1, refs)];
      if confirmed then w.(resources := rs, stack := w.stack + [CleanupRef(path, 1)])
      else w.(resources := rs, orphans := w.orphans + {path})
    case Update(path, expected, refs, changed, confirmed) =>
      var answer := ReplaceAnswer(w.resources, path, expected, changed);
      if !answer.Done? || !changed then w else
      var rs := w.resources[path := Resource(answer.version, refs)];
      if confirmed then
        w.(resources := rs, stack := Recorded(w.stack, path, answer.version), unseen := w.unseen - {path})
      else w.(resources := rs, unseen := w.unseen + {path})
    case TryDelete(path, expected) =>
      if DeleteAnswer(w.resources, path, expected).Done? then w.(resources := w.resources - {path}) else w
  }

  predicate CanRun(base: Resources, w: World, actions: seq<Action>)
    decreases |actions|
  {
    actions == [] || (Allowed(base, w, actions[0]) && CanRun(base, Step(w, actions[0]), actions[1..]))
  }

  function Exec(w: World, actions: seq<Action>): World
    decreases |actions|
  {
    if actions == [] then w else Exec(Step(w, actions[0]), actions[1..])
  }

  function Start(base: Resources): World {
    World(base, [], {}, {})
  }

  predicate Distinct(stack: seq<CleanupRef>) {
    forall i, j :: 0 <= i < j < |stack| ==> stack[i].path != stack[j].path
  }

  /** The store holds what was there, what is on the stack and what was orphaned; each resource
      refers only to older ones, and nothing refers to an orphan. */
  predicate Owned(base: Resources, w: World) {
    && w.resources.Keys == base.Keys + Paths(w.stack) + w.orphans
    && base.Keys !! Paths(w.stack) && base.Keys !! w.orphans && Paths(w.stack) !! w.orphans
    && (forall p <- base :: w.resources[p] == base[p])
    && (forall p <- w.orphans :: w.resources[p].refs <= base.Keys + Paths(w.stack))
    && Distinct(w.stack)
    && forall i :: 0 <= i < |w.stack| ==> OlderRefs(base, w, i)
  }

  predicate OlderRefs(base: Resources, w: World, i: nat)
    requires i < |w.stack|
  {
    w.stack[i].path in w.resources && w.resources[w.stack[i].path].refs <= base.Keys + Paths(w.stack[..i])
  }

  /** A recorded version is the store's current one exactly when the last change was seen. */
  predicate Tracked(w: World) {
    forall ref <- w.stack :: ref.path in w.resources && TrackedRef(w, ref)
  }

  predicate TrackedRef(w: World, ref: CleanupRef)
    requires ref.path in w.resources
  {
    ref.version <= w.resources[ref.path].version &&
    (ref.version == w.resources[ref.path].version <==> ref.path !in w.unseen)
  }

  predicate Sound(base: Resources, w: World) {
    Owned(base, w) && Tracked(w) && w.unseen <= w.resources.Keys
  }

  /** The first entry for the path is overwritten, and without one nothing is. */
  lemma {:induction false} RecordedIs(stack: seq<CleanupRef>, path: Path, version: nat, i: nat)
    requires i <= |stack| && forall k :: 0 <= k < i ==> stack[k].path != path
    ensures i < |stack| && stack[i].path == path ==>
      Recorded(stack, path, version) == stack[i := CleanupRef(path, version)]
    ensures i == |stack| ==> Recorded(stack, path, version) == stack
  {
    if i == 0 {
    } else {
      RecordedIs(stack[1..], path, version, i - 1);
    }
  }

  lemma PathsOverwritten(stack: seq<CleanupRef>, i: nat, ref: CleanupRef, n: nat)
    requires i < |stack| && n <= |stack| && ref.path == stack[i].path
    ensures Paths(stack[i := ref][..n]) == Paths(stack[..n])
  {
    var after := stack[i := ref];
    forall k | 0 <= k < n ensures after[..n][k].path == stack[..n][k].path {}
    forall p ensures p in Paths(after[..n]) <==> p in Paths(stack[..n]) {
      if p in Paths(after[..n]) {
        var k :| 0 <= k < n && after[..n][k].path == p;
        assert stack[..n][k] in stack[..n];
      }
      if p in Paths(stack[..n]) {
        var k :| 0 <= k < n && stack[..n][k].path == p;
        assert after[..n][k] in after[..n];
      }
    }
  }

  // ---- Every call keeps ownership and tracking ---------------------------------------------

  lemma PathsSnoc(stack: seq<CleanupRef>, ref: CleanupRef)
    ensures Paths(stack + [ref]) == Paths(stack) + {ref.path}
  {
  }

  lemma CreateKeeps(base: Resources, w: World, path: Path, refs: set<Path>, confirmed: bool)
    requires SelfContained(base) && Sound(base, w)
    requires Allowed(base, w, Create(path, refs, confirmed))
    ensures Sound(base, Step(w, Create(path, refs, confirmed)))
  {
    var t := Step(w, Create(path, refs, confirmed));
    if confirmed {
      PathsSnoc(w.stack, CleanupRef(path, 1));
    }
    forall i | 0 <= i < |t.stack| ensures OlderRefs(base, t, i) {
      if i < |w.stack| {
        assert OlderRefs(base, w, i);
        assert t.stack[..i] == w.stack[..i];
        assert w.stack[i] in w.stack;
      } else {
        assert t.stack[..i] == w.stack;
      }
    }
    forall i, j | 0 <= i < j < |t.stack| ensures t.stack[i].path != t.stack[j].path {
      assert w.stack[i] in w.stack;
    }
  }

  lemma UpdateKeeps(base: Resources, w: World, a: Action)
    requires Sound(base, w)
    requires a.Update? && Allowed(base, w, a)
    ensures Sound(base, Step(w, a))
  {
    var t := Step(w, a);
    var i :| 0 <= i < |w.stack| && w.stack[i].path == a.path && a.refs <= base.Keys + Paths(w.stack[..i]);
    assert w.stack[i] in w.stack;
    var answer := ReplaceAnswer(w.resources, a.path, a.expected, a.changed);
    if answer.Done? && a.changed {
      if a.confirmed {
        RecordedIs(w.stack, a.path, answer.version, i);
      }
      StackOwned(base, w, t, i);
      StackTracked(base, w, t, i);
    }
  }

  /** `t` is `w` with the resource behind entry `i` replaced, and recorded or not. */
  predicate Replaced(base: Resources, w: World, t: World, i: nat)
    requires i < |w.stack|
  {
    var path := w.stack[i].path;
    && t.orphans == w.orphans && path in w.resources && path in t.resources
    && t.resources == w.resources[path := t.resources[path]]
    && t.resources[path].refs <= base.Keys + Paths(w.stack[..i])
    && t.resources[path].version > w.resources[path].version
    && (|| (t.stack == w.stack && t.unseen == w.unseen + {path})
        || (t.stack == w.stack[i := CleanupRef(path, t.resources[path].version)] && t.unseen == w.unseen - {path}))
  }

  lemma SamePaths(base: Resources, w: World, t: World, i: nat)
    requires i < |w.stack| && Replaced(base, w, t, i)
    ensures |t.stack| == |w.stack| && forall n :: 0 <= n < |w.stack| ==> t.stack[n].path == w.stack[n].path
    ensures forall n :: 0 <= n <= |w.stack| ==> Paths(t.stack[..n]) == Paths(w.stack[..n])
    ensures Paths(t.stack) == Paths(w.stack)
  {
    forall n | 0 <= n <= |w.stack| ensures Paths(t.stack[..n]) == Paths(w.stack[..n]) {
      PathsOverwritten(w.stack, i, t.stack[i], n);
      assert w.stack[i := w.stack[i]] == w.stack;
    }
    assert t.stack[..|w.stack|] == t.stack && w.stack[..|w.stack|] == w.stack;
  }

  lemma StackOwned(base: Resources, w: World, t: World, i: nat)
    requires Owned(base, w) && i < |w.stack| && Replaced(base, w, t, i)
    ensures Owned(base, t)
  {
    assert w.stack[i] in w.stack;
    SamePaths(base, w, t, i);
    forall n | 0 <= n < |t.stack| ensures OlderRefs(base, t, n) {
      assert OlderRefs(base, w, n);
    }
  }

  lemma StackTracked(base: Resources, w: World, t: World, i: nat)
    requires Distinct(w.stack) && Tracked(w) && i < |w.stack| && Replaced(base, w, t, i)
    ensures Tracked(t)
  {
    forall n | 0 <= n < |t.stack| ensures t.stack[n].path in t.resources && TrackedRef(t, t.stack[n]) {
      assert w.stack[n] in w.stack && TrackedRef(w, w.stack[n]);
    }
  }

  lemma {:induction false} ExecSound(base: Resources, w: World, actions: seq<Action>)
    requires SelfContained(base) && Sound(base, w) && CanRun(base, w, actions)
    ensures Sound(base, Exec(w, actions))
    decreases |actions|
  {
    if actions == [] {
    } else {
      var a := actions[0];
      match a {
        case Create(path, refs, confirmed) => CreateKeeps(base, w, path, refs, confirmed);
        case Update(_, _, _, _, _) => UpdateKeeps(base, w, a);
        case TryDelete(_, _) =>
      }
      ExecSound(base, Step(w, a), actions[1..]);
    }
  }

  /** Version tracking: after any calls, the stack's paths are distinct, and a recorded version is
      current exactly when the resource's last change was confirmed to the client. */
  lemma VersionsAreTracked(base: Resources, actions: seq<Action>, i: nat)
    requires SelfContained(base) && CanRun(base, Start(base), actions)
    requires i < |Exec(Start(base), actions).stack|
    ensures var w := Exec(Start(base), actions);
      && Distinct(w.stack)
      && w.stack[i].path in w.resources
      && (w.stack[i].version == w.resources[w.stack[i].path].version <==> w.stack[i].path !in w.unseen)
  {
    ExecSound(base, Start(base), actions);
    var w := Exec(Start(base), actions);
    assert w.stack[i] in w.stack;
    assert TrackedRef(w, w.stack[i]);
  }

  /** When every response reaches the client, no recorded version is stale and nothing is orphaned. */
  lemma {:induction false} ConfirmedRunIsExact(base: Resources, w: World, actions: seq<Action>)
    requires CanRun(base, w, actions) && w.orphans == {} && w.unseen == {}
    requires forall a <- actions :: (a.Create? || a.Update?) ==> a.confirmed
    ensures Exec(w, actions).orphans == {} && Exec(w, actions).unseen == {}
    decreases |actions|
  {
    if actions == [] {
    } else {
      assert actions[0] in actions;
      ConfirmedRunIsExact(base, Step(w, actions[0]), actions[1..]);
    }
  }

  // ---- Cleanup -----------------------------------------------------------------------------

  /** The store after one cleanup call, which has no effect when it is in `fails`. */
  function AfterDelete(rs: Resources, ref: CleanupRef, fails: set<Path>): Resources {
    if ref.path !in fails && DeleteAnswer(rs, ref.path, ref.version).Done? then rs - {ref.path} else rs
  }

  /** The store after the cleanup of a stack, newest entry first. */
  function CleanedUp(rs: Resources, stack: seq<CleanupRef>, fails: set<Path>): Resources {
    if stack == [] then rs else
    var n := |stack| - 1;
    CleanedUp(AfterDelete(rs, stack[n], fails), stack[..n], fails)
  }

  /** Each resource of the chain refers to the next. */
  predicate Chain(rs: Resources, chain: seq<Path>) {
    chain != [] && forall k :: 0 <= k < |chain| - 1 ==> chain[k] in rs && chain[k + 1] in rs[chain[k]].refs
  }

  /** `p` is a root, or a root refers to it directly or through other resources. */
  ghost predicate Reached(rs: Resources, roots: set<Path>, p: Path) {
    exists chain :: Chain(rs, chain) && chain[0] in roots && chain[|chain| - 1] == p
  }

  lemma ReachedRoot(rs: Resources, roots: set<Path>, p: Path)
    requires p in roots
    ensures Reached(rs, roots, p)
  {
    var chain := [p];
    assert Chain(rs, chain) && chain[0] in roots && chain[|chain| - 1] == p;
  }

  lemma ReachedNext(rs: Resources, roots: set<Path>, q: Path, p: Path)
    requires Reached(rs, roots, q) && q in rs && p in rs[q].refs
    ensures Reached(rs, roots, p)
  {
    var chain :| Chain(rs, chain) && chain[0] in roots && chain[|chain| - 1] == q;
    var longer := chain + [p];
    assert Chain(rs, longer) && longer[0] in roots && longer[|longer| - 1] == p;
  }

  lemma ReachedBy(rs: Resources, roots: set<Path>, p: Path)
    requires Reached(rs, roots, p) && p !in roots
    ensures exists q <- rs :: Reached(rs, roots, q) && p in rs[q].refs
  {
    var chain :| Chain(rs, chain) && chain[0] in roots && chain[|chain| - 1] == p;
    var n := |chain| - 1;
    var shorter := chain[..n];
    assert Chain(rs, shorter) && shorter[0] in roots && shorter[|shorter| - 1] == chain[n - 1];
    assert chain[n] in rs[chain[n - 1]].refs;
  }

  /** What cleanup cannot remove by itself: orphans, resources whose recorded version is stale, and
      resources whose deletion fails. */
  function Roots(w: World, fails: set<Path>): set<Path> {
    w.orphans + (w.unseen + fails) * Paths(w.stack)
  }

  /** The resources that are left when the entries from `i` on have been tried. */
  ghost predicate Stage(base: Resources, w: World, fails: set<Path>, i: nat, rs: Resources)
    requires i <= |w.stack|
  {
    && (forall p <- rs :: p in w.resources && rs[p] == w.resources[p])
    && forall p :: p in rs <==> Stays(base, w, fails, i, p)
  }

  ghost predicate Stays(base: Resources, w: World, fails: set<Path>, i: nat, p: Path)
    requires i <= |w.stack|
  {
    p in base || p in w.orphans || p in Paths(w.stack[..i]) ||
    (p in Paths(w.stack[i..]) && Reached(w.resources, Roots(w, fails), p))
  }

  lemma RefersToOlder(base: Resources, w: World, j: nat, i: nat)
    requires Owned(base, w) && i < |w.stack| && j < |w.stack|
    requires w.stack[j].path in w.resources && w.stack[i].path in w.resources[w.stack[j].path].refs
    ensures i < j
  {
    assert OlderRefs(base, w, j);
    assert w.stack[i] in w.stack && w.stack[i].path in Paths(w.stack);
    var k :| 0 <= k < j && w.stack[..j][k].path == w.stack[i].path;
  }

  /** Only something left behind can still refer to an entry when its turn comes. */
  lemma ReferrerIsReached(base: Resources, w: World, fails: set<Path>, i: nat, rs: Resources, q: Path)
    requires SelfContained(base) && Sound(base, w) && i < |w.stack| && Stage(base, w, fails, i + 1, rs)
    requires q in rs && w.stack[i].path in rs[q].refs
    ensures Reached(w.resources, Roots(w, fails), w.stack[i].path)
  {
    var roots := Roots(w, fails);
    assert w.stack[i] in w.stack && w.stack[i].path in Paths(w.stack);
    assert Stays(base, w, fails, i + 1, q);
    if q in Paths(w.stack[..i + 1]) {
      var j :| 0 <= j < i + 1 && w.stack[..i + 1][j].path == q;
      RefersToOlder(base, w, j, i);
      assert false;
    }
    if q in w.orphans { ReachedRoot(w.resources, roots, q); }
    ReachedNext(w.resources, roots, q, w.stack[i].path);
  }

  /** Whatever reaches an entry has been tried before it and was left behind. */
  lemma ReachedHasReferrer(base: Resources, w: World, fails: set<Path>, i: nat, rs: Resources)
    requires SelfContained(base) && Sound(base, w) && i < |w.stack| && Stage(base, w, fails, i + 1, rs)
    requires Reached(w.resources, Roots(w, fails), w.stack[i].path) && w.stack[i].path !in Roots(w, fails)
    ensures IsReferenced(rs, w.stack[i].path)
  {
    var p, roots := w.stack[i].path, Roots(w, fails);
    assert w.stack[i] in w.stack && p in Paths(w.stack);
    ReachedBy(w.resources, roots, p);
    var q :| q in w.resources && Reached(w.resources, roots, q) && p in w.resources[q].refs;
    if q in Paths(w.stack) {
      var j :| 0 <= j < |w.stack| && w.stack[j].path == q;
      RefersToOlder(base, w, j, i);
      assert w.stack[i + 1..][j - i - 1] == w.stack[j];
    }
    assert Stays(base, w, fails, i + 1, q);
    assert q != p by {
      if q == p { RefersToOlder(base, w, i, i); }
    }
  }

  lemma {:induction false} StageToEnd(base: Resources, w: World, fails: set<Path>, i: nat, rs: Resources)
    requires SelfContained(base) && Sound(base, w) && i <= |w.stack| && Stage(base, w, fails, i, rs)
    ensures Stage(base, w, fails, 0, CleanedUp(rs, w.stack[..i], fails))
  {
    if i == 0 {
    } else {
      var n := i - 1;
      var ref := w.stack[n];
      assert w.stack[..i][..n] == w.stack[..n] && w.stack[..i][n] == ref && ref in w.stack;
      StageStep(base, w, fails, n, rs);
      StageToEnd(base, w, fails, n, AfterDelete(rs, ref, fails));
    }
  }

  lemma StageStep(base: Resources, w: World, fails: set<Path>, n: nat, rs: Resources)
    requires SelfContained(base) && Sound(base, w) && n < |w.stack| && Stage(base, w, fails, n + 1, rs)
    ensures Stage(base, w, fails, n, AfterDelete(rs, w.stack[n], fails))
  {
    var ref := w.stack[n];
    var after := AfterDelete(rs, ref, fails);
    KeptWhenTried(base, w, fails, n, rs);
    forall p ensures p in after <==> Stays(base, w, fails, n, p) {
      StaysStep(base, w, fails, n, p);
    }
  }

  lemma StaysStep(base: Resources, w: World, fails: set<Path>, n: nat, p: Path)
    requires Sound(base, w) && n < |w.stack|
    ensures p != w.stack[n].path ==> (Stays(base, w, fails, n, p) <==> Stays(base, w, fails, n + 1, p))
    ensures w.stack[n].path !in base && w.stack[n].path !in w.orphans ==>
      (Stays(base, w, fails, n, w.stack[n].path) <==> Reached(w.resources, Roots(w, fails), w.stack[n].path))
  {
    var ref := w.stack[n];
    PathsSnoc(w.stack[..n], ref);
    assert w.stack[..n + 1] == w.stack[..n] + [ref];
    PathsCons(ref, w.stack[n + 1..]);
    assert w.stack[n..] == [ref] + w.stack[n + 1..];
    NotYetTried(w.stack, n);
  }

  /** A deletion is refused, or fails, exactly for the entries that are reached. */
  lemma KeptWhenTried(base: Resources, w: World, fails: set<Path>, n: nat, rs: Resources)
    requires SelfContained(base) && Sound(base, w) && n < |w.stack| && Stage(base, w, fails, n + 1, rs)
    ensures w.stack[n].path in AfterDelete(rs, w.stack[n], fails) <==>
      Reached(w.resources, Roots(w, fails), w.stack[n].path)
    ensures w.stack[n].path !in base && w.stack[n].path !in w.orphans
  {
    var ref, roots := w.stack[n], Roots(w, fails);
    assert ref in w.stack && ref.path in Paths(w.stack) && TrackedRef(w, ref);
    assert w.stack[..n + 1][n] == ref;
    assert ref.path in Paths(w.stack[..n + 1]);
    assert ref.path in rs && rs[ref.path] == w.resources[ref.path];
    if ref.path in roots {
      ReachedRoot(w.resources, roots, ref.path);
    } else {
      if IsReferenced(rs, ref.path) {
        var q :| q in rs && q != ref.path && ref.path in rs[q].refs;
        ReferrerIsReached(base, w, fails, n, rs, q);
      } else if Reached(w.resources, roots, ref.path) {
        ReachedHasReferrer(base, w, fails, n, rs);
      }
    }
  }

  lemma PathsCons(ref: CleanupRef, stack: seq<CleanupRef>)
    ensures Paths([ref] + stack) == {ref.path} + Paths(stack)
  {
  }

  lemma NotYetTried(stack: seq<CleanupRef>, n: nat)
    requires Distinct(stack) && n < |stack|
    ensures stack[n].path !in Paths(stack[..n]) && stack[n].path !in Paths(stack[n + 1..])
  {
  }

  /** Cleanup leftovers: whatever was created and updated and whichever deletions fail, cleanup
      leaves what was there before, unchanged, and of the journey's own resources exactly those it
      cannot remove by itself and everything those reach by reference. */
  lemma CleanupLeaves(base: Resources, actions: seq<Action>, fails: set<Path>, p: Path)
    requires SelfContained(base) && CanRun(base, Start(base), actions)
    ensures var w := Exec(Start(base), actions);
      var left := CleanedUp(w.resources, w.stack, fails);
      && (p in left ==> p in w.resources && left[p] == w.resources[p])
      && (p in base ==> p in left && left[p] == base[p])
      && (p !in base ==> (p in left <==> p in w.resources && Reached(w.resources, Roots(w, fails), p)))
  {
    ExecSound(base, Start(base), actions);
    var w := Exec(Start(base), actions);
    var n := |w.stack|;
    assert w.stack[..n] == w.stack && w.stack[n..] == [];
    StageToEnd(base, w, fails, n, w.resources);
    assert w.stack[..0] == [] && w.stack[0..] == w.stack;
    if p in w.orphans { ReachedRoot(w.resources, Roots(w, fails), p); }
  }

  /** When every response was confirmed and no deletion fails, cleanup restores the store. */
  lemma CleanupRestores(base: Resources, actions: seq<Action>)
    requires SelfContained(base) && CanRun(base, Start(base), actions)
    requires forall a <- actions :: (a.Create? || a.Update?) ==> a.confirmed
    ensures var w := Exec(Start(base), actions); CleanedUp(w.resources, w.stack, {}) == base
  {
    var w := Exec(Start(base), actions);
    var left := CleanedUp(w.resources, w.stack, {});
    ConfirmedRunIsExact(base, Start(base), actions);
    forall p: Path ensures (p in left <==> p in base) && (p in base ==> left[p] == base[p]) {
      CleanupLeaves(base, actions, {}, p);
      assert Roots(w, {}) == {};
    }
    assert left.Keys == base.Keys;
  }

  // ---- The client object -------------------------------------------------------------------

  class Client {
    const store: Store
    var cleanupStack: seq<CleanupRef>

    constructor (store: Store)
      ensures this.store == store && cleanupStack == []
    {
      this.store := store;
      cleanupStack := [];
    }

    /** Creates a resource and pushes it for cleanup, unless the response is lost or shows no
        identifier or version.  Its state is checked after the push. */
    method Create(path: Path, refs: set<Path>, confirmed: bool, stateValid: bool) returns (ok: bool)
      requires path !in store.resources
      modifies this, store
      ensures ok <==> confirmed && stateValid
      ensures cleanupStack == if confirmed then old(cleanupStack) + [CleanupRef(path, 1)] else old(cleanupStack)
      ensures store.resources == old(store.resources)[path := Resource(1, refs)]
      ensures forall orphans, unseen ::
        var t := Step(World(old(store.resources), old(cleanupStack), orphans, unseen),
                      Action.Create(path, refs, confirmed));
        store.resources == t.resources && cleanupStack == t.stack
    {
      var version := store.Create(path, refs);
      if !confirmed {
        return false;
      }
      cleanupStack := cleanupStack + [CleanupRef(path, version)];
      if !stateValid {
        return false;
      }
      return true;
    }

    method UpdateCleanupVersion(path: Path, version: nat)
      modifies this
      ensures cleanupStack == Recorded(old(cleanupStack), path, version)
    {
      for i := 0 to |cleanupStack|
        invariant cleanupStack == old(cleanupStack)
        invariant forall k :: 0 <= k < i ==> cleanupStack[k].path != path
      {
        if cleanupStack[i].path == path {
          RecordedIs(cleanupStack, path, version, i);
          cleanupStack := cleanupStack[i := CleanupRef(path, version)];
          return;
        }
      }
      RecordedIs(cleanupStack, path, version, |cleanupStack|);
    }

    /** Replaces a resource; the recorded version follows only when the response is confirmed and
        shows a newer version. */
    method Update(path: Path, expected: nat, refs: set<Path>, changed: bool, confirmed: bool) returns (ok: bool)
      modifies this, store
      ensures forall orphans, unseen ::
        var t := Step(World(old(store.resources), old(cleanupStack), orphans, unseen),
                      Action.Update(path, expected, refs, changed, confirmed));
        store.resources == t.resources && cleanupStack == t.stack
      ensures ok <==> confirmed && changed && ReplaceAnswer(old(store.resources), path, expected, changed).Done?
    {
      var answer := store.Replace(path, expected, refs, changed);
      if !confirmed || !answer.Done? {
        return false;
      }
      if answer.version <= expected {
        return false;
      }
      UpdateCleanupVersion(path, answer.version);
      return true;
    }

    /** Deletes the recorded resources, newest first, going on after every failure. */
    method Cleanup(fails: set<Path>)
      modifies store
      ensures store.resources == CleanedUp(old(store.resources), cleanupStack, fails)
    {
      assert cleanupStack[..|cleanupStack|] == cleanupStack;
      for i := |cleanupStack| downto 0
        invariant CleanedUp(store.resources, cleanupStack[..i], fails) ==
          CleanedUp(old(store.resources), cleanupStack, fails)
      {
        var ref := cleanupStack[i];
        assert cleanupStack[..i + 1][..i] == cleanupStack[..i];
        if ref.path !in fails {
          var _ := store.Delete(ref.path, ref.version);
        }
      }
    }
  }
}
