/**
  The content-addressed store as file-system steps: concurrent puts through
  temporary files, verified reads, deletion, start-up removal and crashes
  between any two steps. SHA-256 is a parameter.
 */
module CasStore {
  import opened Wrappers
  import opened Schedules
  import opened Hashing

  // State

  /** A put on its way; data is what its reader delivers, and at where the trace notes its own commit. */
  datatype Put =
    | Writing(data: Bytes, temp: nat, written: nat)
    | Checking(data: Bytes, temp: nat)
    | Moving(data: Bytes, temp: nat)
    | Discarding(data: Bytes, temp: nat, at: nat)     // the object was there already
    | Cleaning(temp: nat, collision: bool)
    | Stored(data: Bytes, at: nat)
    | Failed(collision: bool)

  /** From a commit on, the store promises the data until the object is removed. */
  datatype Note = Committed(name: string, data: Bytes) | Removed(name: string)

  /** inputs holds all byte strings that readers deliver over the run. */
  datatype State = State(
    inputs: set<Bytes>, objects: map<string, Bytes>, temp: map<nat, Bytes>, puts: map<nat, Put>, trace: seq<Note>)

  function Start(inputs: set<Bytes>): State {
    State(inputs, map[], map[], map[], [])
  }

  datatype PutAction =
    | Create(data: Bytes, temp: nat)
    | Write(n: nat)          // the next n bytes
    | Fault                  // reading, writing, syncing or closing failed
    | Sync
    | Stat
    | Move(works: bool)
    | Discard(works: bool)
    | Clean(works: bool)

  datatype Action =
    | PutStep(p: nat, put: PutAction)
    | Delete(name: string)
    | RemoveTemp(file: nat)
    | Crash(torn: map<nat, Bytes>)

  predicate Owns(put: Put, temp: nat) {
    (put.Writing? || put.Checking? || put.Moving? || put.Discarding? || put.Cleaning?) && put.temp == temp
  }

  function WithPut(s: State, p: nat, put: Put): State {
    s.(puts := s.puts[p := put])
  }

  /** One step of PutReader; the rename never replaces an existing object. */
  function PutNext(hash: HashFunction, s: State, p: nat, action: PutAction): (next: Option<State>) {
    if p !in s.puts then
      if action.Create? && action.data in s.inputs && action.temp !in s.temp then
        Some(WithPut(s, p, Writing(action.data, action.temp, 0)).(temp := s.temp[action.temp := []]))
      else None
    else
      match s.puts[p]
      case Writing(data, temp, written) =>
        if action.Fault? then Some(WithPut(s, p, Cleaning(temp, false)))
        else if action.Write? && written + action.n <= |data| then
          var more := written + action.n;
          Some(WithPut(s, p, Writing(data, temp, more)).(temp := s.temp[temp := data[..more]]))
        else if action.Sync? && written == |data| then Some(WithPut(s, p, Checking(data, temp)))
        else None
      case Checking(data, temp) =>
        var name := hash(data);
        if action.Fault? then Some(WithPut(s, p, Cleaning(temp, false)))
        else if !action.Stat? then None
        else if name !in s.objects then Some(WithPut(s, p, Moving(data, temp)))
        else if |s.objects[name]| != |data| then Some(WithPut(s, p, Cleaning(temp, true)))
        else Some(WithPut(s, p, Discarding(data, temp, |s.trace|)).(trace := s.trace + [Committed(name, data)]))
      case Moving(data, temp) =>
        var name := hash(data);
        if !action.Move? then None
        else if !action.works || name in s.objects || temp !in s.temp then Some(WithPut(s, p, Cleaning(temp, false)))
        else
          Some(WithPut(s, p, Stored(data, |s.trace|)).(
                 objects := s.objects[name := s.temp[temp]], temp := s.temp - {temp},
                 trace := s.trace + [Committed(name, data)]))
      case Discarding(data, temp, at) =>
        if !action.Discard? then None
        else if action.works then Some(WithPut(s, p, Stored(data, at)).(temp := s.temp - {temp}))
        else Some(WithPut(s, p, Cleaning(temp, false)))
      case Cleaning(temp, collision) =>
        if action.Clean? then
          Some(WithPut(s, p, Failed(collision)).(temp := if action.works then s.temp - {temp} else s.temp))
        else None
      case Stored(_, _) => None
      case Failed(_) => None
  }

  function Next(hash: HashFunction, s: State, action: Action): (next: Option<State>) {
    match action
    case PutStep(p, put) => PutNext(hash, s, p, put)
    case Delete(name) =>
      if ValidHash(name) && name in s.objects then
        Some(s.(objects := s.objects - {name}, trace := s.trace + [Removed(name)]))
      else Some(s)
    case RemoveTemp(file) =>
      if forall p | p in s.puts :: !Owns(s.puts[p], file) then Some(s.(temp := s.temp - {file})) else None
    case Crash(torn) =>
      // every process is gone; unsynced temporary files hold anything
      if torn.Keys <= s.temp.Keys then Some(s.(puts := map[], temp := torn)) else None
  }

  function Machine(hash: HashFunction): (State, Action) -> Option<State> {
    (s, action) => Next(hash, s, action)
  }

  function After(hash: HashFunction, inputs: set<Bytes>, schedule: seq<Action>): State {
    Execute(Machine(hash), Start(inputs), schedule)
  }

  // Reading

  datatype ReadError = InvalidHash | NotFound | HashMismatch

  function ReadVerified(hash: HashFunction, objects: map<string, Bytes>, name: string): Result<Bytes, ReadError> {
    if !ValidHash(name) then Err(InvalidHash)
    else if name !in objects then Err(NotFound)
    else if hash(objects[name]) != name then Err(HashMismatch)
    else Ok(objects[name])
  }

  /** The data the store owes under this name: that of the last commit, unless a removal came later. */
  function Promised(trace: seq<Note>, name: string): Option<Bytes> {
    if trace == [] then None
    else
      match trace[|trace| - 1]
      case Committed(n, data) => if n == name then Some(data) else Promised(trace[..|trace| - 1], name)
      case Removed(n) => if n == name then None else Promised(trace[..|trace| - 1], name)
  }

  lemma PromisedAppend(trace: seq<Note>, note: Note, name: string)
    ensures Promised(trace + [note], name) ==
            if note.name != name then Promised(trace, name)
            else if note.Committed? then Some(note.data)
            else None
  {
    assert (trace + [note])[..|trace|] == trace;
  }

  // The invariant

  predicate NamedByHash(hash: HashFunction, s: State) {
    forall name | name in s.objects :: hash(s.objects[name]) == name && s.objects[name] in s.inputs
  }

  predicate PutInv(hash: HashFunction, s: State, put: Put) {
    match put
    case Writing(data, temp, written) =>
      data in s.inputs && temp in s.temp && written <= |data| && s.temp[temp] == data[..written]
    case Checking(data, temp) => data in s.inputs && temp in s.temp && s.temp[temp] == data
    case Moving(data, temp) => data in s.inputs && temp in s.temp && s.temp[temp] == data
    case Discarding(data, temp, at) => at < |s.trace| && s.trace[at] == Committed(hash(data), data)
    case Stored(data, at) => at < |s.trace| && s.trace[at] == Committed(hash(data), data)
    case Cleaning(_, _) => true
    case Failed(_) => true
  }

  ghost predicate PutsInv(hash: HashFunction, s: State) {
    && (forall p | p in s.puts :: PutInv(hash, s, s.puts[p]))
    && (forall p, t | p in s.puts && Owns(s.puts[p], t) :: t in s.temp)
    && (forall p, q, t | p in s.puts && q in s.puts && p != q && Owns(s.puts[p], t) :: !Owns(s.puts[q], t))
  }

  ghost predicate CommitsHashed(hash: HashFunction, inputs: set<Bytes>, trace: seq<Note>) {
    forall name, data | Committed(name, data) in trace :: name == hash(data) && data in inputs
  }

  ghost predicate Inv(hash: HashFunction, s: State) {
    NamedByHash(hash, s) && PutsInv(hash, s) && CommitsHashed(hash, s.inputs, s.trace)
  }

  /** What is promised is there, byte for byte, and nothing else is. */
  ghost predicate Kept(hash: HashFunction, s: State) {
    && (forall name | name in s.objects :: Promised(s.trace, name).Some?)
    && (forall name | Promised(s.trace, name).Some? ::
          name in s.objects && s.objects[name] == Promised(s.trace, name).value)
    && NoCollisions(s)
  }

  predicate NoCollisions(s: State) {
    forall p | p in s.puts :: !(s.puts[p].Cleaning? || s.puts[p].Failed?) || !s.puts[p].collision
  }

  // The building blocks of steps

  predicate Free(s: State, t: nat) {
    forall p | p in s.puts :: !Owns(s.puts[p], t)
  }

  lemma SetPut(hash: HashFunction, s: State, p: nat, put: Put)
    requires Inv(hash, s) && PutInv(hash, s, put)
    requires forall t | Owns(put, t) :: t in s.temp && forall q | q in s.puts && q != p :: !Owns(s.puts[q], t)
    ensures Inv(hash, WithPut(s, p, put))
  {
    hide Owns;
    var next := WithPut(s, p, put);
    forall q | q in next.puts ensures PutInv(hash, next, next.puts[q]) {
      assert PutInv(hash, s, next.puts[q]);
    }
  }

  lemma Commit(hash: HashFunction, s: State, data: Bytes)
    requires Inv(hash, s) && data in s.inputs
    ensures Inv(hash, s.(trace := s.trace + [Committed(hash(data), data)]))
  {
    hide Owns;
    var next := s.(trace := s.trace + [Committed(hash(data), data)]);
    forall q | q in next.puts ensures PutInv(hash, next, next.puts[q]) {
      assert PutInv(hash, s, next.puts[q]);
    }
  }

  lemma SetTemp(hash: HashFunction, s: State, temp: map<nat, Bytes>, t: nat)
    requires Inv(hash, s) && Free(s, t)
    requires forall u | u in s.temp && u != t :: u in temp && temp[u] == s.temp[u]
    ensures Inv(hash, s.(temp := temp))
  {
    var next := s.(temp := temp);
    forall q | q in next.puts ensures PutInv(hash, next, next.puts[q]) {
      assert PutInv(hash, s, next.puts[q]);
    }
  }

  lemma AddObject(hash: HashFunction, s: State, content: Bytes)
    requires Inv(hash, s) && content in s.inputs
    ensures Inv(hash, s.(objects := s.objects[hash(content) := content]))
  {
    hide Owns;
    var next := s.(objects := s.objects[hash(content) := content]);
    forall q | q in next.puts ensures PutInv(hash, next, next.puts[q]) {
      assert PutInv(hash, s, next.puts[q]);
    }
  }

  /** A put steps aside: it owns no file any more. */
  lemma Release(hash: HashFunction, s: State, p: nat)
    requires Inv(hash, s)
    ensures var aside := WithPut(s, p, Failed(false));
            Inv(hash, aside) && forall t | p in s.puts && Owns(s.puts[p], t) :: t in s.temp && Free(aside, t)
  {
    SetPut(hash, s, p, Failed(false));
  }

  lemma Unowned(hash: HashFunction, s: State, t: nat)
    requires Inv(hash, s) && t !in s.temp
    ensures Free(s, t)
  {
  }

  lemma Returns(s: State, p: nat, put: Put)
    ensures s.puts[p := Failed(false)][p := put] == s.puts[p := put]
  {
  }

  /** A put that changes its own temporary file. */
  lemma OwnTemp(hash: HashFunction, s: State, p: nat, t: nat, temp: map<nat, Bytes>, put: Put)
    requires Inv(hash, s)
    requires if p in s.puts then Owns(s.puts[p], t) else t !in s.temp
    requires temp == s.temp - {t} || (t in temp && temp == s.temp[t := temp[t]])
    requires PutInv(hash, s.(temp := temp), put) && forall u | Owns(put, u) :: u == t && t in temp
    ensures Inv(hash, WithPut(s, p, put).(temp := temp))
  {
    hide Inv, Owns, PutInv;
    Release(hash, s, p);
    var aside := WithPut(s, p, Failed(false));
    if p !in s.puts {
      Unowned(hash, s, t);
      FreeAside(s, p, t);
    }
    SetTemp(hash, aside, temp, t);
    SamePutInv(hash, s.(temp := temp), aside.(temp := temp), put);
    SetPut(hash, aside.(temp := temp), p, put);
    Returns(s, p, put);
  }

  lemma FreeAside(s: State, p: nat, t: nat)
    requires forall q | q in s.puts && q != p :: !Owns(s.puts[q], t)
    ensures Free(WithPut(s, p, Failed(false)), t)
  {
  }

  /** What is known of a put depends only on the temporary files and the trace. */
  lemma SamePutInv(hash: HashFunction, s: State, other: State, put: Put)
    requires s.temp == other.temp && s.trace == other.trace && s.inputs == other.inputs
    ensures PutInv(hash, s, put) == PutInv(hash, other, put)
  {
  }

  lemma WritingKeeps(hash: HashFunction, s: State, p: nat, action: PutAction)
    requires Inv(hash, s) && (p !in s.puts || s.puts[p].Writing?) && PutNext(hash, s, p, action).Some?
    ensures Inv(hash, PutNext(hash, s, p, action).value)
  {
    var next := PutNext(hash, s, p, action).value;
    var put := next.puts[p];
    if p in s.puts {
      assert PutInv(hash, s, s.puts[p]);
    }
    if action.Create? {
      OwnTemp(hash, s, p, action.temp, next.temp, put);
    } else if action.Write? {
      OwnTemp(hash, s, p, put.temp, next.temp, put);
    } else {
      MoveOn(hash, s, p, put);
    }
  }

  /** A put that keeps its temporary file. */
  lemma MoveOn(hash: HashFunction, s: State, p: nat, put: Put)
    requires Inv(hash, s) && p in s.puts && PutInv(hash, s, put)
    requires forall t | Owns(put, t) :: Owns(s.puts[p], t)
    ensures Inv(hash, WithPut(s, p, put))
  {
    SetPut(hash, s, p, put);
  }

  lemma CheckingKeeps(hash: HashFunction, s: State, p: nat, action: PutAction)
    requires Inv(hash, s) && p in s.puts && s.puts[p].Checking? && PutNext(hash, s, p, action).Some?
    ensures Inv(hash, PutNext(hash, s, p, action).value)
  {
    hide CommitsHashed, NamedByHash, PutsInv;
    var put := s.puts[p];
    var next := PutNext(hash, s, p, action).value;
    assert PutInv(hash, s, put) by { KnownPut(hash, s, p); }
    if next.puts[p].Discarding? {
      var noted := s.(trace := s.trace + [Committed(hash(put.data), put.data)]);
      Commit(hash, s, put.data);
      MoveOn(hash, noted, p, next.puts[p]);
    } else {
      MoveOn(hash, s, p, next.puts[p]);
    }
  }

  lemma KnownPut(hash: HashFunction, s: State, p: nat)
    requires Inv(hash, s) && p in s.puts
    ensures PutInv(hash, s, s.puts[p])
    ensures forall t | Owns(s.puts[p], t) :: t in s.temp
  {
  }

  lemma MovingKeeps(hash: HashFunction, s: State, p: nat, action: PutAction)
    requires Inv(hash, s) && p in s.puts && s.puts[p].Moving? && PutNext(hash, s, p, action).Some?
    ensures Inv(hash, PutNext(hash, s, p, action).value)
  {
    hide CommitsHashed, NamedByHash, PutsInv;
    var put := s.puts[p];
    var next := PutNext(hash, s, p, action).value;
    KnownPut(hash, s, p);
    if next.puts[p].Stored? {
      AddObject(hash, s, put.data);
      var added := s.(objects := next.objects);
      Commit(hash, added, put.data);
      var noted := added.(trace := next.trace);
      OwnTemp(hash, noted, p, put.temp, next.temp, next.puts[p]);
    } else {
      MoveOn(hash, s, p, next.puts[p]);
    }
  }

  lemma EndingKeeps(hash: HashFunction, s: State, p: nat, action: PutAction)
    requires Inv(hash, s) && p in s.puts && (s.puts[p].Discarding? || s.puts[p].Cleaning?)
        && PutNext(hash, s, p, action).Some?
    ensures Inv(hash, PutNext(hash, s, p, action).value)
  {
    hide CommitsHashed, NamedByHash, PutsInv;
    var next := PutNext(hash, s, p, action).value;
    KnownPut(hash, s, p);
    if next.temp != s.temp {
      OwnTemp(hash, s, p, s.puts[p].temp, next.temp, next.puts[p]);
    } else {
      MoveOn(hash, s, p, next.puts[p]);
    }
  }

  lemma StepKeeps(hash: HashFunction, s: State, action: Action)
    requires Inv(hash, s) && Next(hash, s, action).Some?
    ensures Inv(hash, Next(hash, s, action).value)
  {
    match action
    case PutStep(p, put) =>
      hide Inv, PutInv;
      if p !in s.puts || s.puts[p].Writing? {
        WritingKeeps(hash, s, p, put);
      } else if s.puts[p].Checking? {
        CheckingKeeps(hash, s, p, put);
      } else if s.puts[p].Moving? {
        MovingKeeps(hash, s, p, put);
      } else {
        EndingKeeps(hash, s, p, put);
      }
    case Delete(name) => DeleteKeeps(hash, s, name);
    case RemoveTemp(file) => SetTemp(hash, s, s.temp - {file}, file);
    case Crash(torn) =>
  }

  lemma DeleteKeeps(hash: HashFunction, s: State, name: string)
    requires Inv(hash, s)
    ensures Inv(hash, Next(hash, s, Delete(name)).value)
  {
    hide Owns, ValidHash;
    var next := Next(hash, s, Delete(name)).value;
    forall q | q in next.puts ensures PutInv(hash, next, next.puts[q]) {
      assert PutInv(hash, s, next.puts[q]);
    }
  }

  // Promises

  lemma Promise(hash: HashFunction, s: State, next: State, data: Bytes)
    requires Kept(hash, s) && next.trace == s.trace + [Committed(hash(data), data)]
    requires hash(data) in next.objects && next.objects[hash(data)] == data
    requires forall name | name != hash(data) && name in s.objects ::
               name in next.objects && next.objects[name] == s.objects[name]
    requires forall name | name in next.objects :: name == hash(data) || name in s.objects
    requires NoCollisions(next)
    ensures Kept(hash, next)
  {
    forall name | name in next.objects ensures Promised(next.trace, name).Some? {
      PromisedAppend(s.trace, Committed(hash(data), data), name);
    }
    forall name | Promised(next.trace, name).Some?
      ensures name in next.objects && next.objects[name] == Promised(next.trace, name).value
    {
      PromisedAppend(s.trace, Committed(hash(data), data), name);
    }
  }

  lemma PutKept(hash: HashFunction, s: State, p: nat, action: PutAction)
    requires CollisionFree(hash, s.inputs) && Inv(hash, s) && Kept(hash, s) && PutNext(hash, s, p, action).Some?
    ensures Kept(hash, PutNext(hash, s, p, action).value)
  {
    hide CommitsHashed, PutsInv;
    var next := PutNext(hash, s, p, action).value;
    if p in s.puts {
      KnownPut(hash, s, p);
      if next.trace != s.trace {
        Promise(hash, s, next, s.puts[p].data);
      }
    }
  }

  lemma DeleteKept(hash: HashFunction, s: State, name: string)
    requires Kept(hash, s)
    ensures Kept(hash, Next(hash, s, Delete(name)).value)
  {
    var next := Next(hash, s, Delete(name)).value;
    if next.trace != s.trace {
      forall other | other in next.objects ensures Promised(next.trace, other).Some? {
        PromisedAppend(s.trace, Removed(name), other);
      }
      forall other | Promised(next.trace, other).Some?
        ensures other in next.objects && next.objects[other] == Promised(next.trace, other).value
      {
        PromisedAppend(s.trace, Removed(name), other);
      }
    }
  }

  lemma StepKept(hash: HashFunction, s: State, action: Action)
    requires CollisionFree(hash, s.inputs) && Inv(hash, s) && Kept(hash, s) && Next(hash, s, action).Some?
    ensures Kept(hash, Next(hash, s, action).value)
  {
    hide CollisionFree, Promised, Inv;
    match action
    case PutStep(p, put) => PutKept(hash, s, p, put);
    case Delete(name) => DeleteKept(hash, s, name);
    case _ =>
  }

  lemma SameInputs(hash: HashFunction, s: State, action: Action)
    requires Next(hash, s, action).Some?
    ensures Next(hash, s, action).value.inputs == s.inputs
  {
  }

  lemma Invariant(hash: HashFunction, inputs: set<Bytes>, schedule: seq<Action>)
    ensures Inv(hash, After(hash, inputs, schedule)) && After(hash, inputs, schedule).inputs == inputs
  {
    hide Inv, Next;
    forall s: State, action | s.inputs == inputs && Inv(hash, s) && Next(hash, s, action).Some?
      ensures Next(hash, s, action).value.inputs == inputs && Inv(hash, Next(hash, s, action).value)
    {
      SameInputs(hash, s, action);
      StepKeeps(hash, s, action);
    }
    StartInv(hash, inputs);
    Always(Machine(hash), (s: State) => s.inputs == inputs && Inv(hash, s), Start(inputs), schedule);
  }

  lemma StartInv(hash: HashFunction, inputs: set<Bytes>)
    ensures Inv(hash, Start(inputs)) && Kept(hash, Start(inputs)) && Start(inputs).inputs == inputs
  {
  }

  lemma KeptInvariant(hash: HashFunction, inputs: set<Bytes>, schedule: seq<Action>)
    requires CollisionFree(hash, inputs)
    ensures Kept(hash, After(hash, inputs, schedule))
  {
    hide Inv, Next, Kept, CollisionFree;
    forall s: State, action | s.inputs == inputs && Inv(hash, s) && Kept(hash, s) && Next(hash, s, action).Some?
      ensures var next := Next(hash, s, action).value; next.inputs == inputs && Inv(hash, next) && Kept(hash, next)
    {
      SameInputs(hash, s, action);
      StepKeeps(hash, s, action);
      StepKept(hash, s, action);
    }
    StartInv(hash, inputs);
    Always(Machine(hash), (s: State) => s.inputs == inputs && Inv(hash, s) && Kept(hash, s), Start(inputs), schedule);
  }

  // Main results

  /** Over every run, crashes included, each object file holds data with the hash it is named by. */
  lemma ObjectsHashToTheirNames(hash: HashFunction, inputs: set<Bytes>, schedule: seq<Action>, name: string)
    requires name in After(hash, inputs, schedule).objects
    ensures hash(After(hash, inputs, schedule).objects[name]) == name
  {
    hide After, PutsInv;
    Invariant(hash, inputs, schedule);
  }

  /** So a verified read of an existing object never fails and returns what is stored. */
  lemma ReadsNeverMismatch(hash: HashFunction, inputs: set<Bytes>, schedule: seq<Action>, name: string)
    requires HashesAreNames(hash) && name in After(hash, inputs, schedule).objects
    ensures ReadVerified(hash, After(hash, inputs, schedule).objects, name) ==
        Ok(After(hash, inputs, schedule).objects[name])
  {
    hide After;
    ObjectsHashToTheirNames(hash, inputs, schedule, name);
    assert ValidHash(hash(After(hash, inputs, schedule).objects[name]));
  }

  /**
    Reading any hash gives exactly what was committed last under it, or nothing
    when it was removed since or never committed, whatever else happened.
   */
  lemma CommittedDataIsReadBack(hash: HashFunction, inputs: set<Bytes>, schedule: seq<Action>, name: string)
    requires HashesAreNames(hash) && CollisionFree(hash, inputs) && ValidHash(name)
    ensures ReadVerified(hash, After(hash, inputs, schedule).objects, name) ==
            match Promised(After(hash, inputs, schedule).trace, name)
            case Some(data) => Ok(data)
            case None => Err(NotFound)
  {
    hide After, Promised, CollisionFree, HashesAreNames, ValidHash;
    KeptInvariant(hash, inputs, schedule);
    if name in After(hash, inputs, schedule).objects {
      ReadsNeverMismatch(hash, inputs, schedule, name);
    }
  }

  /** A put that reports success noted its own commit, and no put ever reports a collision. */
  lemma StoredWasCommitted(hash: HashFunction, inputs: set<Bytes>, schedule: seq<Action>, p: nat)
    requires p in After(hash, inputs, schedule).puts
    ensures var s := After(hash, inputs, schedule);
            && (s.puts[p].Stored? ==>
                  s.puts[p].at < |s.trace| && s.trace[s.puts[p].at] == Committed(hash(s.puts[p].data), s.puts[p].data))
            && (CollisionFree(hash, inputs) ==> s.puts[p] != Failed(true))
  {
    hide After, NamedByHash, CollisionFree;
    Invariant(hash, inputs, schedule);
    assert PutInv(hash, After(hash, inputs, schedule), After(hash, inputs, schedule).puts[p]);
    if CollisionFree(hash, inputs) {
      KeptInvariant(hash, inputs, schedule);
    }
  }

  /** The name was not removed after this position. */
  predicate KeptSince(trace: seq<Note>, name: string, at: nat) {
    forall i | at < i < |trace| :: trace[i] != Removed(name)
  }

  lemma {:induction false} CommittedIsPromised(trace: seq<Note>, at: nat, hash: HashFunction, inputs: set<Bytes>)
    requires at < |trace| && trace[at].Committed? && KeptSince(trace, trace[at].name, at)
    requires CommitsHashed(hash, inputs, trace) && CollisionFree(hash, inputs)
    ensures Promised(trace, trace[at].name) == Some(trace[at].data)
    decreases |trace|
  {
    var init, last := trace[..|trace| - 1], trace[|trace| - 1];
    if last.name != trace[at].name {
      assert forall note <- init :: note in trace;
      CommittedIsPromised(init, at, hash, inputs);
    } else {
      assert last in trace && trace[at] in trace;
    }
  }

  lemma TraceGrowsByStep(hash: HashFunction, s: State, action: Action)
    requires Next(hash, s, action).Some?
    ensures s.trace <= Next(hash, s, action).value.trace
  {
    hide ValidHash;
  }

  /** What was noted stays noted, over crashes too. */
  lemma {:induction false} TraceGrows(
      hash: HashFunction, inputs: set<Bytes>, schedule: seq<Action>, more: seq<Action>)
    ensures After(hash, inputs, schedule).trace <= After(hash, inputs, schedule + more).trace
    decreases |more|
  {
    hide Next;
    if more == [] {
      assert schedule + more == schedule;
    } else {
      var init, last := more[..|more| - 1], more[|more| - 1];
      assert (schedule + more)[..|schedule + more| - 1] == schedule + init;
      TraceGrows(hash, inputs, schedule, init);
      var before := After(hash, inputs, schedule + init);
      if Next(hash, before, last).Some? {
        TraceGrowsByStep(hash, before, last);
      }
    }
  }

  /**
    After a successful put, whatever happened before it and whatever happens
    later, crashes included: reading the hash gives the data back for as long as
    its object is not removed.
   */
  lemma StoredIsReadBack(
      hash: HashFunction, inputs: set<Bytes>, schedule: seq<Action>, more: seq<Action>, p: nat)
    requires HashesAreNames(hash) && CollisionFree(hash, inputs)
    requires var s := After(hash, inputs, schedule);
             && p in s.puts && s.puts[p].Stored?
             && KeptSince(After(hash, inputs, schedule + more).trace, hash(s.puts[p].data), s.puts[p].at)
    ensures var put := After(hash, inputs, schedule).puts[p];
            ReadVerified(hash, After(hash, inputs, schedule + more).objects, hash(put.data)) == Ok(put.data)
  {
    hide After, CollisionFree, NamedByHash, PutsInv, ReadVerified;
    var put, later := After(hash, inputs, schedule).puts[p], After(hash, inputs, schedule + more);
    StoredWasCommitted(hash, inputs, schedule, p);
    TraceGrows(hash, inputs, schedule, more);
    assert later.trace[put.at] == Committed(hash(put.data), put.data);
    Invariant(hash, inputs, schedule + more);
    CommittedIsPromised(later.trace, put.at, hash, inputs);
    CommittedDataIsReadBack(hash, inputs, schedule + more, hash(put.data));
  }

  // What a caller can count on

  /** Putting data through a new temporary file without a fault; a file of that hash and size counts as the data. */
  function PutSteps(p: nat, data: Bytes, temp: nat, cut: nat, there: bool): seq<Action>
    requires cut <= |data|
  {
    [PutStep(p, Create(data, temp)), PutStep(p, Write(cut)), PutStep(p, Write(|data| - cut))]
    + [PutStep(p, Sync), PutStep(p, Stat), PutStep(p, if there then Discard(true) else Move(true))]
  }

  /**
    A put that meets no fault succeeds in every state, in any two pieces: its
    data is then stored under its hash, and its temporary file is gone.
   */
  lemma PutSucceeds(hash: HashFunction, s: State, p: nat, data: Bytes, temp: nat, cut: nat)
    requires data in s.inputs && p !in s.puts && temp !in s.temp && cut <= |data|
    requires hash(data) in s.objects ==> |s.objects[hash(data)]| == |data|
    ensures var there := hash(data) in s.objects;
            Execute(Machine(hash), s, PutSteps(p, data, temp, cut, there)) ==
            s.(puts := s.puts[p := Stored(data, |s.trace|)], trace := s.trace + [Committed(hash(data), data)],
               objects := if there then s.objects else s.objects[hash(data) := data])
  {
    hide ValidHash, Owns;
    var there, next := hash(data) in s.objects, Machine(hash);
    var first := [PutStep(p, Create(data, temp)), PutStep(p, Write(cut)), PutStep(p, Write(|data| - cut))];
    var last := if there then Discard(true) else Move(true);
    TwoParts(next, s, first, [PutStep(p, Sync), PutStep(p, Stat), PutStep(p, last)]);
    ThreeSteps(next, s, first[0], first[1], first[2]);
    PutWritten(hash, s, p, data, temp, cut);
    var s1 := s.(puts := s.puts[p := Writing(data, temp, |data|)], temp := s.temp[temp := data]);
    ThreeSteps(next, s1, PutStep(p, Sync), PutStep(p, Stat), PutStep(p, last));
    PutEnded(hash, s, p, data, temp);
  }

  lemma PutWritten(hash: HashFunction, s: State, p: nat, data: Bytes, temp: nat, cut: nat)
    requires data in s.inputs && p !in s.puts && temp !in s.temp && cut <= |data|
    ensures var next := Machine(hash);
            Advance(next, Advance(next, Advance(next, s, PutStep(p, Create(data, temp))), PutStep(p, Write(cut))),
                    PutStep(p, Write(|data| - cut))) ==
            s.(puts := s.puts[p := Writing(data, temp, |data|)], temp := s.temp[temp := data])
  {
    var next := Machine(hash);
    var s1 := Advance(next, s, PutStep(p, Create(data, temp)));
    assert s1 == s.(puts := s.puts[p := Writing(data, temp, 0)], temp := s.temp[temp := []]);
    var s2 := Advance(next, s1, PutStep(p, Write(cut)));
    assert s2 == s.(puts := s.puts[p := Writing(data, temp, cut)], temp := s.temp[temp := data[..cut]]);
    assert data[..|data|] == data;
  }

  lemma PutEnded(hash: HashFunction, s: State, p: nat, data: Bytes, temp: nat)
    requires p !in s.puts && temp !in s.temp
    requires hash(data) in s.objects ==> |s.objects[hash(data)]| == |data|
    ensures var next, there := Machine(hash), hash(data) in s.objects;
            var s1 := s.(puts := s.puts[p := Writing(data, temp, |data|)], temp := s.temp[temp := data]);
            Advance(next, Advance(next, Advance(next, s1, PutStep(p, Sync)), PutStep(p, Stat)),
                    PutStep(p, if there then Discard(true) else Move(true))) ==
            s.(puts := s.puts[p := Stored(data, |s.trace|)], trace := s.trace + [Committed(hash(data), data)],
               objects := if there then s.objects else s.objects[hash(data) := data])
  {
    var next, there := Machine(hash), hash(data) in s.objects;
    var s1 := s.(puts := s.puts[p := Writing(data, temp, |data|)], temp := s.temp[temp := data]);
    var s2 := Advance(next, s1, PutStep(p, Sync));
    assert s2 == s1.(puts := s.puts[p := Checking(data, temp)]);
    var s3 := Advance(next, s2, PutStep(p, Stat));
    assert s.temp[temp := data] - {temp} == s.temp;
    if there {
      assert s3 == s1.(puts := s.puts[p := Discarding(data, temp, |s.trace|)],
                       trace := s.trace + [Committed(hash(data), data)]);
    } else {
      assert s3 == s1.(puts := s.puts[p := Moving(data, temp)]);
    }
  }

  /** A put that meets a fault before its rename fails and takes its temporary file with it, and nothing else. */
  lemma FaultsCleanUp(hash: HashFunction, s: State, p: nat)
    requires p in s.puts && (s.puts[p].Writing? || s.puts[p].Checking?)
    ensures Execute(Machine(hash), s, [PutStep(p, Fault), PutStep(p, Clean(true))]) ==
            s.(puts := s.puts[p := Failed(false)], temp := s.temp - {s.puts[p].temp})
  {
    var next, temp := Machine(hash), s.puts[p].temp;
    FirstStep(next, s, PutStep(p, Fault), [PutStep(p, Clean(true))]);
    var s1 := WithPut(s, p, Cleaning(temp, false));
    assert Advance(next, s, PutStep(p, Fault)) == s1;
    FirstStep(next, s1, PutStep(p, Clean(true)), []);
    assert [PutStep(p, Fault)] + [PutStep(p, Clean(true))] == [PutStep(p, Fault), PutStep(p, Clean(true))];
    assert [PutStep(p, Clean(true))] + [] == [PutStep(p, Clean(true))];
    assert s1.puts[p := Failed(false)] == s.puts[p := Failed(false)];
  }

  /** An object of another size under the same hash is a collision: the put fails with it and changes no object. */
  lemma CollisionsAreReported(hash: HashFunction, s: State, p: nat)
    requires p in s.puts && s.puts[p].Checking? && hash(s.puts[p].data) in s.objects
    requires |s.objects[hash(s.puts[p].data)]| != |s.puts[p].data|
    ensures Execute(Machine(hash), s, [PutStep(p, Stat), PutStep(p, Clean(true))]) ==
            s.(puts := s.puts[p := Failed(true)], temp := s.temp - {s.puts[p].temp})
  {
    var next, temp := Machine(hash), s.puts[p].temp;
    FirstStep(next, s, PutStep(p, Stat), [PutStep(p, Clean(true))]);
    var s1 := WithPut(s, p, Cleaning(temp, true));
    assert Advance(next, s, PutStep(p, Stat)) == s1;
    FirstStep(next, s1, PutStep(p, Clean(true)), []);
    assert [PutStep(p, Stat)] + [PutStep(p, Clean(true))] == [PutStep(p, Stat), PutStep(p, Clean(true))];
    assert [PutStep(p, Clean(true))] + [] == [PutStep(p, Clean(true))];
    assert s1.puts[p := Failed(true)] == s.puts[p := Failed(true)];
  }

  /** A deletion removes the addressed object, says so, and touches nothing else. */
  lemma DeletionRemoves(hash: HashFunction, inputs: set<Bytes>, schedule: seq<Action>, name: string)
    requires ValidHash(name)
    ensures var s, end := After(hash, inputs, schedule), After(hash, inputs, schedule + [Delete(name)]);
            && ReadVerified(hash, end.objects, name) == Err(NotFound)
            && end.objects == s.objects - {name} && end.temp == s.temp && end.puts == s.puts
            && (name in s.objects ==> end.trace == s.trace + [Removed(name)])
  {
    assert (schedule + [Delete(name)])[..|schedule|] == schedule;
    var s := After(hash, inputs, schedule);
    assert name !in s.objects ==> s.objects - {name} == s.objects;
  }

  /** Objects come and go only by a put that moves its own data in and by deletions. */
  lemma ObjectsChangeByPutsAndDeletions(hash: HashFunction, inputs: set<Bytes>, schedule: seq<Action>, action: Action)
    ensures var s, end := After(hash, inputs, schedule), After(hash, inputs, schedule + [action]);
            end.objects == s.objects
            || (action.Delete? && ValidHash(action.name) && end.objects == s.objects - {action.name})
            || (&& action.PutStep? && action.p in s.puts && s.puts[action.p].Moving?
                && var data := s.puts[action.p].data;
                   hash(data) !in s.objects && end.objects == s.objects[hash(data) := data]
                   && end.puts[action.p] == Stored(data, |s.trace|))
  {
    hide ValidHash, Owns, NamedByHash, CommitsHashed;
    Invariant(hash, inputs, schedule);
    assert (schedule + [action])[..|schedule|] == schedule;
    var s := After(hash, inputs, schedule);
    if action.PutStep? && action.p in s.puts {
      KnownPut(hash, s, action.p);
    }
  }

  /** A crash takes every put and leaves every object and the trace alone. */
  lemma CrashesKeepObjects(hash: HashFunction, inputs: set<Bytes>, schedule: seq<Action>, torn: map<nat, Bytes>)
    requires torn.Keys <= After(hash, inputs, schedule).temp.Keys
    ensures After(hash, inputs, schedule + [Crash(torn)]) ==
            After(hash, inputs, schedule).(puts := map[], temp := torn)
  {
    assert (schedule + [Crash(torn)])[..|schedule|] == schedule;
  }
}
