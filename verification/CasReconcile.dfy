/**
  Start-up reconciliation of the content-addressed store: enumerate the tree,
  refuse anything unexpected before touching anything, then remove what the
  database does not register. The order of removals is left to the worker pool.
 */
module CasReconcile {
  import opened Wrappers
  import opened Hashing
  import WorkerPool

  datatype Node = Regular(content: Bytes) | Irregular

  datatype Prefix = Directory(files: map<string, Node>) | NotDirectory

  /** The sha256 directory by prefix, and the tmp directory. */
  datatype Tree = Tree(sha: map<string, Prefix>, temp: map<string, Node>)

  datatype Candidate = Object(prefix: string, name: string) | Temporary(name: string)

  datatype Counts = Counts(objects: nat, temporaries: nat)

  datatype Error = InvalidRegistered | Unexpected | ScanFailed | RemovalFailed

  /** What the file system and the context do: unreadable or cancelled scans, and failing or cancelled removals. */
  datatype Env = Env(scanFails: string -> bool, tempScanFails: bool, removeFails: Candidate -> bool)

  // Expected trees

  predicate ValidPrefix(p: string) {
    |p| == 2 && IsHexDigit(p[0]) && IsHexDigit(p[1])
  }

  predicate ObjectExpected(prefix: string, name: string, node: Node) {
    ValidHash(name) && name[..2] == prefix && node.Regular?
  }

  predicate PrefixExpected(name: string, p: Prefix) {
    ValidPrefix(name) && p.Directory? && forall f | f in p.files :: ObjectExpected(name, f, p.files[f])
  }

  predicate TreeExpected(t: Tree) {
    && (forall p | p in t.sha :: PrefixExpected(p, t.sha[p]))
    && (forall f | f in t.temp :: t.temp[f].Regular?)
  }

  predicate RegisteredValid(registered: set<string>) {
    forall h | h in registered :: ValidHash(h)
  }

  // What is removed and what is left

  function OrphansIn(prefix: string, p: Prefix, registered: set<string>): set<Candidate> {
    if p.Directory? then set f | f in p.files && f !in registered :: Object(prefix, f) else {}
  }

  function Orphans(t: Tree, registered: set<string>): set<Candidate> {
    (set p, c | p in t.sha && c in OrphansIn(p, t.sha[p], registered) :: c) + (set f | f in t.temp :: Temporary(f))
  }

  function PrefixWithout(prefix: string, p: Prefix, gone: set<Candidate>): Prefix {
    if p.Directory? then Directory(map f | f in p.files && Object(prefix, f) !in gone :: p.files[f]) else p
  }

  function Without(t: Tree, gone: set<Candidate>): Tree {
    Tree(map p | p in t.sha :: PrefixWithout(p, t.sha[p], gone),
         map f | f in t.temp && Temporary(f) !in gone :: t.temp[f])
  }

  function ObjectsAmong(cs: set<Candidate>): set<Candidate> {
    set c | c in cs && c.Object?
  }

  function TemporariesAmong(cs: set<Candidate>): set<Candidate> {
    set c | c in cs && c.Temporary?
  }

  function CountsOf(removed: set<Candidate>): Counts {
    Counts(|ObjectsAmong(removed)|, |TemporariesAmong(removed)|)
  }

  /** The candidates whose removal works. */
  function Removable(cs: set<Candidate>, env: Env): set<Candidate> {
    set c | c in cs && !env.removeFails(c)
  }

  lemma NothingCounted()
    ensures CountsOf({}) == Counts(0, 0)
  {
    assert ObjectsAmong({}) == {} && TemporariesAmong({}) == {};
  }

  lemma WithoutNone(t: Tree)
    ensures Without(t, {}) == t
  {
    assert forall p | p in t.sha :: PrefixWithout(p, t.sha[p], {}) == t.sha[p];
  }

  /** Removing one file changes one directory. */
  lemma WithoutOne(t: Tree, c: Candidate)
    ensures Without(t, {c}) ==
            match c
            case Object(prefix, name) =>
              if prefix in t.sha && t.sha[prefix].Directory? then
                t.(sha := t.sha[prefix := Directory(t.sha[prefix].files - {name})])
              else t
            case Temporary(name) => t.(temp := t.temp - {name})
  {
    forall p | p in t.sha && !(c.Object? && p == c.prefix) ensures PrefixWithout(p, t.sha[p], {c}) == t.sha[p] {
      if t.sha[p].Directory? {
        assert PrefixWithout(p, t.sha[p], {c}).files == t.sha[p].files;
      }
    }
    if c.Object? && c.prefix in t.sha && t.sha[c.prefix].Directory? {
      assert PrefixWithout(c.prefix, t.sha[c.prefix], {c}).files == t.sha[c.prefix].files - {c.name};
    }
  }

  lemma WithoutOneMore(t: Tree, gone: set<Candidate>, c: Candidate)
    ensures Without(Without(t, gone), {c}) == Without(t, gone + {c})
  {
    forall p | p in t.sha
      ensures PrefixWithout(p, PrefixWithout(p, t.sha[p], gone), {c}) == PrefixWithout(p, t.sha[p], gone + {c})
    {
    }
  }

  lemma CountsOneMore(removed: set<Candidate>, c: Candidate)
    requires c !in removed
    ensures CountsOf(removed + {c}) ==
            if c.Object? then CountsOf(removed).(objects := CountsOf(removed).objects + 1)
            else CountsOf(removed).(temporaries := CountsOf(removed).temporaries + 1)
  {
    if c.Object? {
      assert ObjectsAmong(removed + {c}) == ObjectsAmong(removed) + {c};
      assert TemporariesAmong(removed + {c}) == TemporariesAmong(removed);
    } else {
      assert TemporariesAmong(removed + {c}) == TemporariesAmong(removed) + {c};
      assert ObjectsAmong(removed + {c}) == ObjectsAmong(removed);
    }
  }

  class CasTree {
    var sha: map<string, Prefix>
    var temp: map<string, Node>

    function Value(): Tree
      reads this
    {
      Tree(sha, temp)
    }

    constructor (t: Tree)
      ensures Value() == t
    {
      sha, temp := t.sha, t.temp;
    }

    method Remove(c: Candidate)
      modifies this
      ensures Value() == Without(old(Value()), {c})
    {
      WithoutOne(Value(), c);
      match c
      case Object(prefix, name) =>
        if prefix in sha && sha[prefix].Directory? {
          sha := sha[prefix := Directory(sha[prefix].files - {name})];
        }
      case Temporary(name) => temp := temp - {name};
    }

    /** The files of one prefix directory: every entry has to be expected. */
    method ScanPrefix(prefix: string, registered: set<string>) returns (ok: bool, found: set<Candidate>)
      requires prefix in sha
      ensures ok <==> PrefixExpected(prefix, sha[prefix])
      ensures ok ==> found == OrphansIn(prefix, sha[prefix], registered)
    {
      found := {};
      if !ValidPrefix(prefix) || !sha[prefix].Directory? {
        return false, {};
      }
      var files := sha[prefix].files;
      var todo := files.Keys;
      ok := true;
      while todo != {} && ok
        invariant todo <= files.Keys
        invariant ok ==> forall f | f in files && f !in todo :: ObjectExpected(prefix, f, files[f])
        invariant ok ==> found == set f | f in files && f !in registered && f !in todo :: Object(prefix, f)
        invariant !ok ==> exists f :: f in files && !ObjectExpected(prefix, f, files[f])
        decreases todo
      {
        var f :| f in todo;
        if !ObjectExpected(prefix, f, files[f]) {
          ok := false;
        } else if f !in registered {
          found := found + {Object(prefix, f)};
        }
        todo := todo - {f};
      }
    }

    /** The enumeration: nothing is changed, and nothing unexpected is overlooked. */
    method Scan(registered: set<string>, env: Env) returns (err: Option<Error>, found: set<Candidate>)
      ensures err.None? ==> TreeExpected(Value()) && found == Orphans(Value(), registered)
      ensures err.None? <==> TreeExpected(Value()) && !env.tempScanFails && forall p | p in sha :: !env.scanFails(p)
      ensures err.Some? ==> err.value == Unexpected || err.value == ScanFailed
      ensures err == Some(Unexpected) ==> !TreeExpected(Value())
      ensures err == Some(ScanFailed) ==> env.tempScanFails || exists p :: p in sha && env.scanFails(p)
    {
      found := {};
      var todo := sha.Keys;
      err := None;
      while todo != {} && err.None?
        invariant todo <= sha.Keys
        invariant err.None? ==> forall p | p in sha && p !in todo :: PrefixExpected(p, sha[p]) && !env.scanFails(p)
        invariant err.None? ==> found == set p, c | p in sha && p !in todo && c in OrphansIn(p, sha[p], registered) :: c
        invariant err.Some? ==> (err.value == Unexpected || err.value == ScanFailed) && Refused(env)
        invariant err == Some(Unexpected) ==> exists p :: p in sha && !PrefixExpected(p, sha[p])
        invariant err == Some(ScanFailed) ==> exists p :: p in sha && env.scanFails(p)
        decreases todo
      {
        var p :| p in todo;
        if env.scanFails(p) {
          err := Some(ScanFailed);
        } else {
          var ok, more := ScanPrefix(p, registered);
          if ok {
            found := found + more;
          } else {
            err := Some(Unexpected);
          }
        }
        todo := todo - {p};
      }
      if err.Some? {
        return;
      }
      var ok := ScanTemp();
      if env.tempScanFails || !ok {
        return Some(if env.tempScanFails then ScanFailed else Unexpected), found;
      }
      found := found + set f | f in temp :: Temporary(f);
    }

    ghost predicate Refused(env: Env)
      reads this
    {
      exists p :: p in sha && (env.scanFails(p) || !PrefixExpected(p, sha[p]))
    }

    method ScanTemp() returns (ok: bool)
      ensures ok <==> forall f | f in temp :: temp[f].Regular?
    {
      var todo := temp.Keys;
      ok := true;
      while todo != {} && ok
        invariant todo <= temp.Keys
        invariant ok <==> forall f | f in temp && f !in todo :: temp[f].Regular?
        decreases todo
      {
        var f :| f in todo;
        ok := temp[f].Regular?;
        todo := todo - {f};
      }
    }

    /**
      Reconcile. Before the first removal everything has been checked; afterwards
      exactly the orphans whose removal worked are gone, and the counts say how many.
     */
    method Reconcile(registered: set<string>, env: Env) returns (counts: Counts, err: Option<Error>)
      modifies this
      ensures !RegisteredValid(registered) ==> err == Some(InvalidRegistered)
      ensures RegisteredValid(registered) && !TreeExpected(old(Value()))
        ==> err == Some(Unexpected) || err == Some(ScanFailed)
      ensures err.Some? && err.value != RemovalFailed ==> Value() == old(Value()) && counts == Counts(0, 0)
      ensures err.None? || err.value == RemovalFailed ==>
                && RegisteredValid(registered) && TreeExpected(old(Value()))
                && var removed := Removable(Orphans(old(Value()), registered), env);
                   Value() == Without(old(Value()), removed) && counts == CountsOf(removed)
      ensures err.None? <==>
                && RegisteredValid(registered) && TreeExpected(old(Value()))
                && !env.tempScanFails && (forall p | p in old(sha) :: !env.scanFails(p))
                && Removable(Orphans(old(Value()), registered), env) == Orphans(old(Value()), registered)
    {
      hide Without, CountsOf, Orphans, TreeExpected, Removable;
      counts, err := Counts(0, 0), None;
      if !RegisteredValid(registered) {
        return counts, Some(InvalidRegistered);
      }
      var scanError, found := Scan(registered, env);
      if scanError.Some? {
        return counts, scanError;
      }
      counts, err := RemoveAll(found, env);
    }

    /** What the workers do together, in any order. */
    method RemoveAll(found: set<Candidate>, env: Env) returns (counts: Counts, err: Option<Error>)
      modifies this
      ensures Value() == Without(old(Value()), Removable(found, env)) && counts == CountsOf(Removable(found, env))
      ensures err == if Removable(found, env) == found then None else Some(RemovalFailed)
    {
      hide Without, CountsOf;
      var todo := found;
      ghost var removed: set<Candidate> := {};
      WithoutNone(Value());
      counts, err := Counts(0, 0), None;
      NothingCounted();
      while todo != {}
        invariant todo <= found
        invariant removed == Removable(found - todo, env)
        invariant Value() == Without(old(Value()), removed) && counts == CountsOf(removed)
        invariant err == if removed == found - todo then None else Some(RemovalFailed)
        decreases todo
      {
        var c :| c in todo;
        if env.removeFails(c) {
          err := Some(RemovalFailed);
          assert c in found - (todo - {c}) && c !in removed;
        } else {
          WithoutOneMore(old(Value()), removed, c);
          CountsOneMore(removed, c);
          Remove(c);
          removed := removed + {c};
          if c.Temporary? {
            counts := counts.(temporaries := counts.temporaries + 1);
          } else {
            counts := counts.(objects := counts.objects + 1);
          }
        }
        todo := todo - {c};
      }
      assert found - todo == found;
    }
  }

  // What that means

  predicate HasObject(t: Tree, prefix: string, name: string) {
    prefix in t.sha && t.sha[prefix].Directory? && name in t.sha[prefix].files
  }

  lemma OrphanExactly(t: Tree, registered: set<string>, prefix: string, name: string)
    ensures Object(prefix, name) in Orphans(t, registered) <==> HasObject(t, prefix, name) && name !in registered
    ensures Temporary(name) in Orphans(t, registered) <==> name in t.temp
  {
    if HasObject(t, prefix, name) && name !in registered {
      assert Object(prefix, name) in OrphansIn(prefix, t.sha[prefix], registered);
    }
  }

  /** In every outcome, each registered object is still there with its content, and nothing new has appeared. */
  lemma RegisteredObjectsSurvive(t: Tree, registered: set<string>, gone: set<Candidate>, prefix: string, name: string)
    requires gone <= Orphans(t, registered)
    ensures HasObject(t, prefix, name) && name in registered ==> HasObject(Without(t, gone), prefix, name)
    ensures HasObject(Without(t, gone), prefix, name) ==>
              HasObject(t, prefix, name) && Without(t, gone).sha[prefix].files[name] == t.sha[prefix].files[name]
    ensures forall f | f in Without(t, gone).temp :: f in t.temp && Without(t, gone).temp[f] == t.temp[f]
  {
    hide Orphans;
    OrphanExactly(t, registered, prefix, name);
  }

  function Names(t: Tree): set<string> {
    set p, f | p in t.sha && t.sha[p].Directory? && f in t.sha[p].files :: f
  }

  /** After a success, exactly the registered ones of the old objects are left, and tmp is empty. */
  lemma SuccessLeavesRegistered(t: Tree, registered: set<string>)
    ensures Names(Without(t, Orphans(t, registered))) == Names(t) * registered
    ensures Without(t, Orphans(t, registered)).temp == map[]
  {
    var gone := Orphans(t, registered);
    var after := Without(t, gone);
    forall f | f in Names(t) && f in registered ensures f in Names(after) {
      var p :| p in t.sha && t.sha[p].Directory? && f in t.sha[p].files;
      RegisteredObjectsSurvive(t, registered, gone, p, f);
      assert HasObject(after, p, f);
    }
    forall f | f in Names(after) ensures f in Names(t) && f in registered {
      var p :| p in after.sha && after.sha[p].Directory? && f in after.sha[p].files;
      assert HasObject(t, p, f);
      OrphanExactly(t, registered, p, f);
    }
    forall f | f in t.temp ensures f !in after.temp {
      OrphanExactly(t, registered, "", f);
    }
  }

  /** The counts of a success: as many objects as were not registered, and every temporary file. */
  lemma SuccessCounts(t: Tree, registered: set<string>)
    requires TreeExpected(t)
    ensures CountsOf(Orphans(t, registered)) == Counts(|Names(t) - registered|, |t.temp|)
  {
    var objects := ObjectsAmong(Orphans(t, registered));
    SameSize(objects, Names(t) - registered, (c: Candidate) => c.name) by {
      forall c | c in objects ensures c.name in Names(t) - registered && c.prefix == c.name[..2] {
        var p :| p in t.sha && c in OrphansIn(p, t.sha[p], registered);
        assert HasObject(t, p, c.name) && PrefixExpected(p, t.sha[p]);
      }
      forall f | f in Names(t) - registered ensures Object(f[..2], f) in objects {
        var p :| p in t.sha && t.sha[p].Directory? && f in t.sha[p].files;
        assert PrefixExpected(p, t.sha[p]);
        assert Object(p, f) in OrphansIn(p, t.sha[p], registered);
      }
    }
    var temporaries := TemporariesAmong(Orphans(t, registered));
    SameSize(temporaries, t.temp.Keys, (c: Candidate) => c.name) by {
      forall f | f in t.temp ensures Temporary(f) in temporaries {
        assert Temporary(f) in Orphans(t, registered);
      }
    }
  }

  lemma {:induction false} SameSize(cs: set<Candidate>, names: set<string>, name: Candidate -> string)
    requires forall c | c in cs :: name(c) in names
    requires forall c, d | c in cs && d in cs && name(c) == name(d) :: c == d
    requires forall n | n in names :: exists c :: c in cs && name(c) == n
    ensures |cs| == |names|
    decreases cs
  {
    if cs == {} {
      assert names == {};
    } else {
      var c :| c in cs;
      SameSize(cs - {c}, names - {name(c)}, name) by {
        forall n | n in names - {name(c)} ensures exists d :: d in cs - {c} && name(d) == n {
          var d :| d in cs && name(d) == n;
          assert d in cs - {c};
        }
      }
    }
  }

  // The pool does what RemoveAll does

  predicate InRange(order: seq<nat>, n: nat) {
    forall k | 0 <= k < |order| :: order[k] < n
  }

  /** The files of these candidates, removed one by one. */
  function RemovedInOrder(t: Tree, candidates: seq<Candidate>, order: seq<nat>): Tree
    requires InRange(order, |candidates|)
  {
    if order == [] then t
    else Without(RemovedInOrder(t, candidates, order[..|order| - 1]), {candidates[order[|order| - 1]]})
  }

  /** The final loop over the outcomes. */
  function Counted(candidates: seq<Candidate>, outcomes: seq<WorkerPool.Outcome>): Counts
    requires forall o <- outcomes :: o.candidate < |candidates|
  {
    if outcomes == [] then Counts(0, 0)
    else
      var before, last := Counted(candidates, outcomes[..|outcomes| - 1]), outcomes[|outcomes| - 1];
      if last.failed then before
      else if candidates[last.candidate].Temporary? then before.(temporaries := before.temporaries + 1)
      else before.(objects := before.objects + 1)
  }

  function Picked(candidates: seq<Candidate>, order: seq<nat>): set<Candidate>
    requires InRange(order, |candidates|)
  {
    set k | 0 <= k < |order| :: candidates[order[k]]
  }

  lemma {:induction false} OrderDoesNotMatter(t: Tree, candidates: seq<Candidate>, order: seq<nat>)
    requires InRange(order, |candidates|)
    ensures RemovedInOrder(t, candidates, order) == Without(t, Picked(candidates, order))
    decreases |order|
  {
    hide Without;
    if order == [] {
      assert Picked(candidates, order) == {};
      WithoutNone(t);
    } else {
      var init, last := order[..|order| - 1], order[|order| - 1];
      OrderDoesNotMatter(t, candidates, init);
      WithoutOneMore(t, Picked(candidates, init), candidates[last]);
      assert Picked(candidates, order) == Picked(candidates, init) + {candidates[last]};
    }
  }

  function Succeeded(candidates: seq<Candidate>, outcomes: seq<WorkerPool.Outcome>): set<Candidate>
    requires forall o <- outcomes :: o.candidate < |candidates|
  {
    set o | o in outcomes && !o.failed :: candidates[o.candidate]
  }

  predicate DistinctOutcomes(outcomes: seq<WorkerPool.Outcome>) {
    forall i, j | 0 <= i < j < |outcomes| :: outcomes[i].candidate != outcomes[j].candidate
  }

  predicate DistinctCandidates(candidates: seq<Candidate>) {
    forall i, j | 0 <= i < j < |candidates| :: candidates[i] != candidates[j]
  }

  lemma {:induction false} CountedOnce(candidates: seq<Candidate>, outcomes: seq<WorkerPool.Outcome>)
    requires forall o <- outcomes :: o.candidate < |candidates|
    requires DistinctOutcomes(outcomes) && DistinctCandidates(candidates)
    ensures Counted(candidates, outcomes) == CountsOf(Succeeded(candidates, outcomes))
    decreases |outcomes|
  {
    hide CountsOf;
    if outcomes == [] {
      assert Succeeded(candidates, outcomes) == {};
      NothingCounted();
    } else {
      var init, last := outcomes[..|outcomes| - 1], outcomes[|outcomes| - 1];
      CountedOnce(candidates, init);
      assert forall o <- outcomes :: o in init || o == last;
      assert forall o <- init :: o in outcomes && o.candidate != last.candidate;
      if last.failed {
        assert Succeeded(candidates, outcomes) == Succeeded(candidates, init);
      } else {
        assert Succeeded(candidates, outcomes) == Succeeded(candidates, init) + {candidates[last.candidate]};
        CountsOneMore(Succeeded(candidates, init), candidates[last.candidate]);
      }
    }
  }

  /** The pool ran over these candidates and met the failures of the environment. */
  ghost predicate PoolRan(candidates: seq<Candidate>, workers: nat, schedule: seq<WorkerPool.Action>, env: Env) {
    var s := WorkerPool.After(|candidates|, workers, schedule);
    && s.collected
    && forall o <- s.outcomes :: o.candidate < |candidates| ==> o.failed == env.removeFails(candidates[o.candidate])
  }

  /**
    Whatever the schedule, once the outcomes are collected the tree and the
    counts are those of RemoveAll, and the error is set exactly when it is there.
   */
  lemma PoolRemovesAll(
      t: Tree, candidates: seq<Candidate>, found: set<Candidate>, workers: nat, schedule: seq<WorkerPool.Action>,
      env: Env)
    requires DistinctCandidates(candidates) && found == (set i | 0 <= i < |candidates| :: candidates[i])
    requires PoolRan(candidates, workers, schedule, env)
    ensures var s := WorkerPool.After(|candidates|, workers, schedule);
            && InRange(s.removed, |candidates|) && (forall o <- s.outcomes :: o.candidate < |candidates|)
            && RemovedInOrder(t, candidates, s.removed) == Without(t, Removable(found, env))
            && Counted(candidates, s.outcomes) == CountsOf(Removable(found, env))
            && ((exists o :: o in s.outcomes && o.failed) <==> Removable(found, env) != found)
  {
    hide WorkerPool.After, Without, CountsOf;
    var s := WorkerPool.After(|candidates|, workers, schedule);
    WorkerPool.OutcomesAreDistinct(|candidates|, workers, schedule);
    forall k | 0 <= k < |s.removed| ensures s.removed[k] < |candidates| && !env.removeFails(candidates[s.removed[k]]) {
      WorkerPool.RemovedExactlyAsReported(|candidates|, workers, schedule, s.removed[k]);
      assert s.removed[k] in s.removed;
    }
    forall c: nat | c < |candidates|
      ensures WorkerPool.Outcome(c, env.removeFails(candidates[c])) in s.outcomes
      ensures !env.removeFails(candidates[c]) ==> c in s.removed
    {
      WorkerPool.RemovedExactlyAsReported(|candidates|, workers, schedule, c);
      assert WorkerPool.HasOutcome(s.outcomes, c);
      var i :| 0 <= i < |s.outcomes| && s.outcomes[i].candidate == c;
      assert s.outcomes[i] in s.outcomes && s.outcomes[i] == WorkerPool.Outcome(c, env.removeFails(candidates[c]));
    }
    assert Picked(candidates, s.removed) == Removable(found, env);
    OrderDoesNotMatter(t, candidates, s.removed);
    assert Succeeded(candidates, s.outcomes) == Removable(found, env);
    CountedOnce(candidates, s.outcomes);
    FailuresLeft(candidates, found, s.outcomes, env);
  }

  lemma FailuresLeft(candidates: seq<Candidate>, found: set<Candidate>, outcomes: seq<WorkerPool.Outcome>, env: Env)
    requires found == (set i | 0 <= i < |candidates| :: candidates[i])
    requires forall o <- outcomes :: o.candidate < |candidates| && o.failed == env.removeFails(candidates[o.candidate])
    requires forall c: nat | c < |candidates| :: WorkerPool.Outcome(c, env.removeFails(candidates[c])) in outcomes
    ensures (exists o :: o in outcomes && o.failed) <==> Removable(found, env) != found
  {
    if o :| o in outcomes && o.failed {
      assert candidates[o.candidate] in found && candidates[o.candidate] !in Removable(found, env);
    }
    if c :| c in found && env.removeFails(c) {
      var i :| 0 <= i < |candidates| && candidates[i] == c;
      assert WorkerPool.Outcome(i, true) in outcomes;
    }
  }
}
