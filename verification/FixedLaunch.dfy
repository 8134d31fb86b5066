/**
 The native launch of a cached kernel. Python calls answer arbitrarily, may raise,
 and may let other threads run; those change the artifact cache only under the artifact
 lock, and everything else that keeps the entry resident only under the CUDA lock. The
 trace records what the launch did.
 */
module FixedLaunch {
  import opened Int32
  import opened Integers
  import opened Wrappers

  type Error = nat

  /** What a Python call answers to a check. */
  datatype Answer = Pass | No | Raises(error: Error)

  datatype Outcome = Launched | Declined | Raised(error: Error)

  datatype Lock = Artifact | Cuda
  datatype Holder = Free | Us | Other

  /** Where the entry and its caches say the module is. */
  datatype Residency = Residency(cacheResident: bool, unloading: bool, unloaded: bool, unloadBlocked: bool,
                                 artifactCached: bool, loadedCached: bool, retired: nat)

  predicate Live(r: Residency) {
    && r.cacheResident && !r.unloading && !r.unloaded && !r.unloadBlocked
    && r.artifactCached && r.loadedCached && r.retired == 0
  }

  /** The arguments after the dictionaries were read: two inputs, one output, a count and a grid. */
  datatype Arguments = Arguments(requestedBlock: int, count: int, blocks: int, input0: nat, input1: nat, output: nat)

  predicate PositiveI32(x: int) {
    0 < x <= I32_MAX
  }

  predicate GeometryMatches(a: Arguments, block: nat)
    requires block > 0
  {
    && PositiveI32(a.requestedBlock) && a.requestedBlock == block
    && PositiveI32(a.count) && PositiveI32(a.blocks)
    && a.blocks == (a.count + block - 1) / block
  }

  /** The block asked for is the prepared one, and the grid covers a positive count without a superfluous block. */
  lemma GeometryIff(a: Arguments, block: nat)
    requires block > 0
    ensures GeometryMatches(a, block)
       <==> && a.requestedBlock == block <= 0x7fff_ffff
            && 0 < a.count <= 0x7fff_ffff && 0 < a.blocks <= 0x7fff_ffff
            && (a.blocks - 1) * block < a.count <= a.blocks * block
  {
    var n := a.count + block - 1;
    assert n == n / block * block + n % block;
    if (a.blocks - 1) * block < a.count <= a.blocks * block {
      QuotientUnique(n, block, a.blocks, n - block * a.blocks);
    }
  }

  function Distance(x: nat, y: nat): nat {
    if x < y then y - x else x - y
  }

  /** Neither input is a shifted view of the output. */
  predicate NoShiftedOverlap(a: Arguments, activeBytes: nat) {
    && !(Distance(a.input0, a.output) != 0 && Distance(a.input0, a.output) < activeBytes)
    && !(Distance(a.input1, a.output) != 0 && Distance(a.input1, a.output) < activeBytes)
  }

  /** What a call asks: before the locks, of the locks, and under both. */
  datatype Check = ReferencesAlive | BadFork | FunctionMode | TensorMetadata | CurrentDevice | CurrentStream
    | StreamCapturing | Logging | TensorType | FunctionModeAgain | Pointers
    | Symbols | TakeLock(lock: Lock)
    | EntryUnchanged | Resident | CurrentContext | MoveEntry(cache: Lock) | PendingStream

  const BEFORE_THE_LOCKS := [ReferencesAlive, BadFork, FunctionMode, TensorMetadata, CurrentDevice, CurrentStream,
                             StreamCapturing, Logging, TensorType, FunctionModeAgain, Pointers]

  /** A check that was made, and what it answered. */
  datatype Asked = Asked(check: Check, answer: Answer)

  ghost predicate Passing(asked: seq<Asked>) {
    forall i :: 0 <= i < |asked| ==> asked[i].answer == Pass
  }

  ghost function ChecksOf(asked: seq<Asked>): (checks: seq<Check>)
    ensures |checks| == |asked|
  {
    seq(|asked|, i requires 0 <= i < |asked| => asked[i].check)
  }

  /** The outcome of a check that does not pass. */
  function Refusal(answer: Answer): Outcome {
    if answer.Raises? then Raised(answer.error) else Declined
  }

  /** Every check passed but the last, which decides the outcome. */
  ghost predicate StoppedBy(asked: seq<Asked>, r: Outcome) {
    && asked != [] && Passing(asked[..|asked| - 1]) && asked[|asked| - 1].answer != Pass
    && r == Refusal(asked[|asked| - 1].answer)
  }

  /** The checks are the first ones of the order. */
  ghost predicate Follows(checks: seq<Check>, order: seq<Check>) {
    forall i :: 0 <= i < |checks| && i < |order| ==> checks[i] == order[i]
  }

  lemma FollowsConcat(a: seq<Check>, b: seq<Check>, order: seq<Check>)
    requires Follows(b, order)
    ensures Follows(a + b, a + order)
  {
  }

  lemma MovesAreFew(moves: seq<Event>)
    requires Moves(moves)
    ensures |moves| <= 2
  {
  }

  /** Checks that pass, and the ones after them. */
  lemma AskedAfter(passed: seq<Asked>, asked: seq<Asked>, r: Outcome)
    requires Passing(passed)
    ensures ChecksOf(passed + asked) == ChecksOf(passed) + ChecksOf(asked)
    ensures Passing(asked) ==> Passing(passed + asked)
    ensures StoppedBy(asked, r) ==> StoppedBy(passed + asked, r)
  {
    if asked != [] {
      assert (passed + asked)[..|passed + asked| - 1] == passed + asked[..|asked| - 1];
    }
  }

  ghost function NextAsked(asked: seq<Asked>, check: Check, answer: Answer): (longer: seq<Asked>)
    requires Passing(asked)
    ensures longer == asked + [Asked(check, answer)]
    ensures ChecksOf(longer) == ChecksOf(asked) + [check]
    ensures if answer == Pass then Passing(longer) else StoppedBy(longer, Refusal(answer))
    ensures forall other :: other in longer <==> other in asked || other == Asked(check, answer)
  {
    var longer := asked + [Asked(check, answer)];
    assert longer[..|longer| - 1] == asked;
    longer
  }

  function MoveCheck(e: Event): Check {
    if e.Moved? then MoveEntry(e.cache) else PendingStream
  }

  /** What is asked of the caches that hold other entries too. */
  function MoveChecks(moves: seq<Event>): seq<Check> {
    seq(|moves|, i requires 0 <= i < |moves| => MoveCheck(moves[i]))
  }

  /** What is asked of the entry and the context under both locks. */
  function UnderChecks(moves: seq<Event>, rawStream: nat): seq<Check> {
    [EntryUnchanged, Resident, CurrentContext] + MoveChecks(moves) + if rawStream == 0 then [PendingStream] else []
  }

  /** The locks, and what is asked while they are held. */
  function LockedChecks(moves: seq<Event>, rawStream: nat): seq<Check> {
    [TakeLock(Artifact), TakeLock(Cuda)] + UnderChecks(moves, rawStream)
  }

  /** An effect, with the number of residency locks held at that moment. */
  datatype Event =
    | Acquired(lock: Lock)
    | Released(lock: Lock)
    | Moved(cache: Lock, held: nat)
    | Pending(held: nat)
    | Enqueued(arguments: Arguments, entry: Residency, held: nat, result: Option<Error>)
    | Fenced(held: nat, result: Option<Error>)
    | UnloadBlocked(held: nat, done: bool)
    | Recorded(tensor: nat, held: nat, result: Option<Error>)
    | Versioned(held: nat, result: Option<Error>)

  function Result(e: Event): Option<Error> {
    if e.Enqueued? || e.Fenced? || e.Recorded? || e.Versioned? then e.result else None
  }

  function Either(a: Option<Error>, b: Option<Error>): Option<Error> {
    if a.Some? then a else b
  }

  /** The first failure of the effects, in the order they were attempted. */
  function FirstFailure(t: seq<Event>): Option<Error> {
    if t == [] then None else Either(FirstFailure(t[..|t| - 1]), Result(t[|t| - 1]))
  }

  // --------------------------------------------------------------- traces

  /**
   A cache that holds other entries too makes its entry the most recent one: the
   artifacts, then the loaded modules.
  */
  predicate Moves(t: seq<Event>) {
    t == [] || t == [Moved(Artifact, 2)] || t == [Moved(Cuda, 2)] || t == [Moved(Artifact, 2), Moved(Cuda, 2)]
  }

  /**
   No effect on a device or a tensor: locks taken and given back in reverse order,
   and at most the entry made recent under both.
  */
  ghost predicate OnlyLocks(t: seq<Event>) {
    t == [] || t == [Acquired(Artifact), Released(Artifact)] || exists moves: seq<Event> :: IsLockedMoves(t, moves)
  }

  ghost predicate IsLockedMoves(t: seq<Event>, moves: seq<Event>) {
    Moves(moves) && t == Locked(moves)
  }

  /** What happened, between taking the two locks and giving them back. */
  function Locked(inside: seq<Event>): seq<Event> {
    [Acquired(Artifact), Acquired(Cuda)] + inside + [Released(Cuda), Released(Artifact)]
  }

  /** A trace that took both locks, went on inside, and gave them back. */
  lemma LockedTrace(before: seq<Event>, inside: seq<Event>)
    ensures before + [Acquired(Artifact)] + [Acquired(Cuda)] + inside + [Released(Cuda)] + [Released(Artifact)]
         == before + Locked(inside)
  {
  }

  const LOCKED_ORDER := [TakeLock(Artifact), TakeLock(Cuda), EntryUnchanged, Resident, CurrentContext]

  lemma LocksFollow()
    ensures Passing([]) && ChecksOf([]) == []
    ensures Follows([TakeLock(Artifact)], LOCKED_ORDER)
    ensures Follows([TakeLock(Artifact), TakeLock(Cuda)], LOCKED_ORDER)
  {
  }

  /** The checks of the locks and then those under them. */
  lemma AskedUnderLocks(locks: seq<Asked>, checked: seq<Asked>, refused: Outcome, attempted: bool, moves: seq<Event>,
                        rawStream: nat)
    requires Passing(locks) && |locks| == 2 && ChecksOf(locks) == [TakeLock(Artifact), TakeLock(Cuda)]
    requires attempted ==> Passing(checked) && ChecksOf(checked) == UnderChecks(moves, rawStream)
    requires !attempted ==> StoppedBy(checked, refused)
    requires Follows(ChecksOf(checked), [EntryUnchanged, Resident, CurrentContext])
    ensures attempted ==> Passing(locks + checked) && ChecksOf(locks + checked) == LockedChecks(moves, rawStream)
    ensures !attempted ==> StoppedBy(locks + checked, refused)
    ensures Follows(ChecksOf(locks + checked), LOCKED_ORDER)
  {
    AskedAfter(locks, checked, refused);
    FollowsConcat(ChecksOf(locks), ChecksOf(checked), [EntryUnchanged, Resident, CurrentContext]);
    assert [TakeLock(Artifact), TakeLock(Cuda)] + [EntryUnchanged, Resident, CurrentContext] == LOCKED_ORDER;
  }

  lemma LockedOnce()
    ensures OnlyLocks([]) && OnlyLocks([Acquired(Artifact), Released(Artifact)])
  {
  }

  lemma LockedMoves(moves: seq<Event>)
    requires Moves(moves)
    ensures OnlyLocks(Locked(moves)) && |Locked(moves)| == 4 + |moves|
  {
    assert IsLockedMoves(Locked(moves), moves);
  }

  /** What happened under both locks, when the kernel was enqueued. */
  ghost predicate EnqueuedUnderLocks(t: seq<Event>, a: Arguments, rawStream: nat) {
    if rawStream == 0 then
      |t| == 2 && t[0] == Pending(2) && EnqueuedLive(t[1], a)
    else if |t| > 0 && EnqueuedLive(t[0], a) && t[0].result.Some? then
      |t| == 2 && BlocksUnload(t[1])
    else
      && 2 <= |t| && EnqueuedLive(t[0], a) && t[1].Fenced? && t[1].held == 2
      && if t[1].result.Some? then |t| == 3 && BlocksUnload(t[2]) else |t| == 2
  }

  predicate BlocksUnload(e: Event) {
    e.UnloadBlocked? && e.held == 2
  }

  predicate EnqueuedLive(e: Event, a: Arguments) {
    e.Enqueued? && e.arguments == a && Live(e.entry) && e.held == 2
  }

  /** Allocator records of the three tensors and one version update, with no lock held. */
  predicate Finished(t: seq<Event>) {
    && |t| == 4 && (forall i :: 0 <= i < 3 ==> RecordOf(t[i], i))
    && t[3].Versioned? && t[3].held == 0
  }

  predicate RecordOf(e: Event, i: nat) {
    e.Recorded? && e.tensor == i && e.held == 0
  }

  /** Everything that one complete attempt did. */
  ghost predicate Attempted(t: seq<Event>, a: Arguments, rawStream: nat) {
    exists moves: seq<Event>, under: seq<Event>, after: seq<Event> :: IsAttempt(t, moves, under, after, a, rawStream)
  }

  ghost predicate IsAttempt(t: seq<Event>, moves: seq<Event>, under: seq<Event>, after: seq<Event>, a: Arguments,
                            rawStream: nat) {
    && t == Locked(moves + under) + after
    && Moves(moves) && EnqueuedUnderLocks(under, a, rawStream) && Finished(after)
  }

  /** All or nothing. Only a call on the default stream is declined after a cache was reordered. */
  ghost predicate AllOrNothing(t: seq<Event>, r: Outcome, a: Arguments, rawStream: nat) {
    || (OnlyLocks(t) && !r.Launched? && (|t| > 4 && r.Declined? ==> rawStream == 0))
    || (Attempted(t, a, rawStream) && r == OutcomeOf(FirstFailure(t)))
  }

  function OutcomeOf(failure: Option<Error>): Outcome {
    match failure
    case None => Launched
    case Some(e) => Raised(e)
  }

  /** The checks are made in this order, up to the one that stops the call. */
  ghost predicate AsksInOrder(asked: seq<Asked>) {
    var order := [ReferencesAlive, BadFork, FunctionMode, TensorMetadata, CurrentDevice, CurrentStream, StreamCapturing,
                  Logging, TensorType, FunctionModeAgain, Pointers, Symbols, TakeLock(Artifact), TakeLock(Cuda),
                  EntryUnchanged, Resident, CurrentContext];
    Follows(ChecksOf(asked), order)
  }

  /** Everything was attempted, after every check was made and passed. */
  ghost predicate AttemptedAfter(t: seq<Event>, asked: seq<Asked>, a: Arguments, rawStream: nat) {
    exists moves: seq<Event>, under: seq<Event>, after: seq<Event> ::
      && IsAttempt(t, moves, under, after, a, rawStream)
      && ChecksOf(asked)
         == [ReferencesAlive, BadFork, FunctionMode, TensorMetadata, CurrentDevice, CurrentStream, StreamCapturing,
             Logging, TensorType, FunctionModeAgain, Pointers, Symbols] + LockedChecks(moves, rawStream)
  }

  /**
   The checks decide: the first that does not pass stops the call, without any effect
   before the locks; ranges that overlap stop it after the pointers; and when all pass,
   everything is attempted.
  */
  ghost predicate Decides(asked: seq<Asked>, separate: bool, t: seq<Event>, r: Outcome, a: Arguments, rawStream: nat) {
    && AsksInOrder(asked)
    && if !Passing(asked) then StoppedBy(asked, r) && OnlyLocks(t) && (|asked| <= 13 ==> t == [])
       else if !separate then |asked| == 11 && r == Declined && t == []
       else AttemptedAfter(t, asked, a, rawStream)
  }

  lemma {:induction false} FirstFailureConcat(s: seq<Event>, t: seq<Event>)
    ensures FirstFailure(s + t) == Either(FirstFailure(s), FirstFailure(t))
  {
    if t == [] {
      assert s + t == s;
    } else {
      assert (s + t)[..|s + t| - 1] == s + t[..|t| - 1];
      FirstFailureConcat(s, t[..|t| - 1]);
    }
  }

  lemma FirstFailureNext(t: seq<Event>, e: Event)
    ensures FirstFailure(t + [e]) == Either(FirstFailure(t), Result(e))
  {
    assert (t + [e])[..|t|] == t;
  }

  lemma NoFailure()
    ensures FirstFailure([]) == None && FirstFailure([Pending(2)]) == None
  {
    FirstFailureNext([], Pending(2));
    assert [] + [Pending(2)] == [Pending(2)];
  }

  // --------------------------------------------------------------- the class

  lemma EntryFollows()
    ensures Passing([]) && ChecksOf([]) == []
    ensures Follows([EntryUnchanged], [EntryUnchanged, Resident, CurrentContext])
    ensures Follows([EntryUnchanged, Resident], [EntryUnchanged, Resident, CurrentContext])
    ensures Follows([EntryUnchanged, Resident, CurrentContext], [EntryUnchanged, Resident, CurrentContext])
  {
  }

  // What one cache leaves: an event when it was reordered, and one answer when that was tried.

  ghost function MoveEvents(cache: Lock, moved: bool): seq<Event> {
    if moved then [Moved(cache, 2)] else []
  }

  ghost function MoveQuestions(cache: Lock, moved: bool, failed: Option<Error>): seq<Asked> {
    if failed.Some? then [Asked(MoveEntry(cache), Raises(failed.value))]
    else if moved then [Asked(MoveEntry(cache), Pass)]
    else []
  }

  lemma MovedFirst(artifact: bool, failed: Option<Error>)
    requires failed.Some? ==> !artifact
    ensures var moves, asked := MoveEvents(Artifact, artifact), MoveQuestions(Artifact, artifact, failed);
            && Moves(moves) && (failed.None? ==> Passing(asked) && ChecksOf(asked) == MoveChecks(moves))
            && (failed.Some? ==> StoppedBy(asked, Raised(failed.value)))
  {
  }

  lemma MovedBoth(artifact: bool, cuda: bool, failed: Option<Error>)
    requires failed.Some? ==> !cuda
    ensures var moves := MoveEvents(Artifact, artifact) + MoveEvents(Cuda, cuda);
            var asked := MoveQuestions(Artifact, artifact, None) + MoveQuestions(Cuda, cuda, failed);
            && Moves(moves) && (failed.None? ==> Passing(asked) && ChecksOf(asked) == MoveChecks(moves))
            && (failed.Some? ==> StoppedBy(asked, Raised(failed.value)))
  {
    var moves := MoveEvents(Artifact, artifact) + MoveEvents(Cuda, cuda);
    assert moves == (if artifact then (if cuda then [Moved(Artifact, 2), Moved(Cuda, 2)] else [Moved(Artifact, 2)])
                     else if cuda then [Moved(Cuda, 2)] else []);
  }

  class FixedCUDALaunch {
    const rawStream: nat
    const block: nat
    const elementBytes: nat
    var artifactLock: Holder
    var cudaLock: Holder
    var entry: Residency
    ghost var trace: seq<Event>
    ghost var questions: seq<Asked>

    constructor (rawStream: nat, block: nat, elementBytes: nat, entry: Residency)
      requires 0 < block <= 1024
      ensures this.rawStream == rawStream && this.block == block && this.elementBytes == elementBytes
      ensures Idle() && trace == [] && questions == []
    {
      this.rawStream, this.block, this.elementBytes := rawStream, block, elementBytes;
      this.entry := entry;
      artifactLock, cudaLock := Free, Free;
      trace, questions := [], [];
    }

    ghost predicate Idle()
      reads this
    {
      artifactLock != Us && cudaLock != Us && block > 0
    }

    function Held(): nat
      reads this
    {
      (if artifactLock == Us then 1 else 0) + (if cudaLock == Us then 1 else 0)
    }

    /** What the CUDA lock protects: all of the residency but the artifact cache. */
    ghost predicate SameModule(before: Residency)
      reads this
    {
      entry == before.(artifactCached := entry.artifactCached)
    }

    /** Other threads: they take no lock of ours, and change what a lock protects only while they hold it. */
    method Interfere()
      modifies this`artifactLock, this`cudaLock, this`entry
      ensures artifactLock == Us <==> old(artifactLock) == Us
      ensures cudaLock == Us <==> old(cudaLock) == Us
      ensures old(artifactLock) == Us ==> entry.artifactCached == old(entry).artifactCached
      ensures old(cudaLock) == Us ==> SameModule(old(entry))
    {
      var steps: int := *;
      for i := 0 to if steps > 0 then steps else 0
        invariant artifactLock == Us <==> old(artifactLock) == Us
        invariant cudaLock == Us <==> old(cudaLock) == Us
        invariant old(artifactLock) == Us ==> entry.artifactCached == old(entry).artifactCached
        invariant old(cudaLock) == Us ==> SameModule(old(entry))
      {
        var choice: int := *;
        if choice == 0 && artifactLock == Free {
          artifactLock := Other;
        } else if choice == 1 && cudaLock == Free {
          cudaLock := Other;
        } else if choice == 2 && artifactLock == Other {
          artifactLock := Free;
        } else if choice == 3 && cudaLock == Other {
          cudaLock := Free;
        } else if choice == 4 && artifactLock == Other {
          var cached: bool := *;
          entry := entry.(artifactCached := cached);
        } else if choice == 5 && cudaLock == Other {
          var changed: Residency := *;
          entry := changed.(artifactCached := entry.artifactCached);
        }
      }
    }

    /** One Python call, and its answer. */
    method Ask(check: Check) returns (answer: Answer)
      modifies this`artifactLock, this`cudaLock, this`entry, this`questions
      ensures questions == old(questions) + [Asked(check, answer)]
      ensures artifactLock == Us <==> old(artifactLock) == Us
      ensures cudaLock == Us <==> old(cudaLock) == Us
      ensures old(artifactLock) == Us ==> entry.artifactCached == old(entry).artifactCached
      ensures old(cudaLock) == Us ==> SameModule(old(entry))
    {
      Interfere();
      answer := *;
      questions := questions + [Asked(check, answer)];
    }

    /** One check that no Python call makes. */
    method Test(check: Check, holds: bool) returns (answer: Answer)
      modifies this`questions
      ensures answer == (if holds then Pass else No) && questions == old(questions) + [Asked(check, answer)]
    {
      answer := if holds then Pass else No;
      questions := questions + [Asked(check, answer)];
    }

    /** One Python call that only succeeds or raises. */
    method Perform(check: Check) returns (failed: Option<Error>)
      modifies this`artifactLock, this`cudaLock, this`entry, this`questions
      ensures questions == old(questions) + [Asked(check, if failed.Some? then Raises(failed.value) else Pass)]
      ensures artifactLock == Us <==> old(artifactLock) == Us
      ensures cudaLock == Us <==> old(cudaLock) == Us
      ensures old(artifactLock) == Us ==> entry.artifactCached == old(entry).artifactCached
      ensures old(cudaLock) == Us ==> SameModule(old(entry))
    {
      Interfere();
      failed := *;
      questions := questions + [Asked(check, if failed.Some? then Raises(failed.value) else Pass)];
    }

    /** A call that either succeeds or fails, made with the interpreter held, and its effect. */
    method Attempt(ghost effect: (nat, Option<Error>) -> Event) returns (result: Option<Error>)
      modifies this`trace
      ensures trace == old(trace) + [effect(Held(), result)]
    {
      result := *;
      trace := trace + [effect(Held(), result)];
    }

    /** Takes a lock only when it is free. */
    method TryLock(lock: Lock) returns (answer: Answer)
      requires if lock == Artifact then artifactLock != Us && cudaLock != Us else artifactLock == Us && cudaLock != Us
      modifies this
      ensures questions == old(questions) + [Asked(TakeLock(lock), answer)]
      ensures answer == Pass ==> trace == old(trace) + [Acquired(lock)]
      ensures answer.No? ==> (if lock == Artifact then artifactLock else cudaLock) == Other
      ensures answer != Pass ==> trace == old(trace)
      ensures artifactLock == Us <==> old(artifactLock) == Us || (lock == Artifact && answer == Pass)
      ensures cudaLock == Us <==> lock == Cuda && answer == Pass
    {
      Interfere();
      answer := *;
      if answer.Raises? {
        questions := questions + [Asked(TakeLock(lock), answer)];
        return;
      }
      answer := No;
      if lock == Artifact && artifactLock == Free {
        artifactLock := Us;
        answer := Pass;
      } else if lock == Cuda && cudaLock == Free {
        cudaLock := Us;
        answer := Pass;
      }
      questions := questions + [Asked(TakeLock(lock), answer)];
      if answer == Pass {
        trace := trace + [Acquired(lock)];
      }
    }

    method Unlock(lock: Lock)
      requires (if lock == Artifact then artifactLock else cudaLock) == Us
      modifies this
      ensures trace == old(trace) + [Released(lock)] && entry == old(entry) && questions == old(questions)
      ensures artifactLock == if lock == Artifact then Free else old(artifactLock)
      ensures cudaLock == if lock == Cuda then Free else old(cudaLock)
    {
      if lock == Artifact {
        artifactLock := Free;
      } else {
        cudaLock := Free;
      }
      trace := trace + [Released(lock)];
    }

    /** The checks before the locks; the first that does not pass decides. */
    method Validate() returns (answer: Answer, ghost asked: seq<Asked>)
      requires Idle()
      modifies this`artifactLock, this`cudaLock, this`entry, this`questions
      ensures Idle() && questions == old(questions) + asked
      ensures answer == Pass ==> Passing(asked) && ChecksOf(asked) == BEFORE_THE_LOCKS
      ensures answer != Pass ==> StoppedBy(asked, Refusal(answer)) && ChecksOf(asked) <= BEFORE_THE_LOCKS
    {
      answer, asked := Pass, [];
      for i := 0 to |BEFORE_THE_LOCKS|
        invariant Idle() && answer == Pass && Passing(asked) && ChecksOf(asked) == BEFORE_THE_LOCKS[..i]
        invariant questions == old(questions) + asked
      {
        answer := Ask(BEFORE_THE_LOCKS[i]);
        asked := NextAsked(asked, BEFORE_THE_LOCKS[i], answer);
        assert BEFORE_THE_LOCKS[..i + 1] == BEFORE_THE_LOCKS[..i] + [BEFORE_THE_LOCKS[i]];
        if answer != Pass {
          return;
        }
      }
    }

    /** Whether the entry is as it was prepared, and still resident in the current context. */
    method CheckEntry() returns (answer: Answer, ghost asked: seq<Asked>)
      requires artifactLock == Us && cudaLock == Us
      modifies this`artifactLock, this`cudaLock, this`entry, this`questions
      ensures artifactLock == Us && cudaLock == Us && entry == old(entry)
      ensures questions == old(questions) + asked
      ensures Follows(ChecksOf(asked), [EntryUnchanged, Resident, CurrentContext])
      ensures answer == Pass ==> Live(entry) && Passing(asked) && |asked| == 3
      ensures answer != Pass ==> StoppedBy(asked, Refusal(answer))
      ensures Asked(Resident, No) in asked ==> !Live(entry)
    {
      asked := [];
      EntryFollows();
      hide NextAsked, Passing, StoppedBy, Follows, ChecksOf, Live;
      answer := Ask(EntryUnchanged);              // types, modules, and identities of the entry
      asked := NextAsked(asked, EntryUnchanged, answer);
      assert ChecksOf(asked) == [EntryUnchanged];
      if answer != Pass { return; }
      answer := Test(Resident, Live(entry));
      asked := NextAsked(asked, Resident, answer);
      assert ChecksOf(asked) == [EntryUnchanged, Resident];
      if answer != Pass { return; }
      answer := Ask(CurrentContext);
      asked := NextAsked(asked, CurrentContext, answer);
      assert ChecksOf(asked) == [EntryUnchanged, Resident, CurrentContext];
    }

    /** A cache of more than one entry makes this one the most recent, or fails to. */
    method Move(cache: Lock) returns (moved: bool, failed: Option<Error>)
      requires artifactLock == Us && cudaLock == Us
      modifies this
      ensures artifactLock == Us && cudaLock == Us && entry == old(entry)
      ensures trace == old(trace) + MoveEvents(cache, moved)
      ensures failed.Some? ==> !moved
      ensures questions == old(questions) + MoveQuestions(cache, moved, failed)
    {
      moved, failed := false, None;
      var others: bool := *;
      if others {
        failed := Perform(MoveEntry(cache));
        if failed.Some? { return; }
        trace := trace + [Moved(cache, Held())];
        moved := true;
      }
    }

    /** Both caches, the artifacts first. */
    method MoveBoth() returns (failed: Option<Error>, ghost moves: seq<Event>, ghost asked: seq<Asked>)
      requires artifactLock == Us && cudaLock == Us
      modifies this
      ensures artifactLock == Us && cudaLock == Us && entry == old(entry)
      ensures Moves(moves) && trace == old(trace) + moves && questions == old(questions) + asked
      ensures failed.None? ==> Passing(asked) && ChecksOf(asked) == MoveChecks(moves)
      ensures failed.Some? ==> StoppedBy(asked, Raised(failed.value))
    {
      hide MoveEvents, MoveQuestions, Moves, Passing, StoppedBy, ChecksOf, MoveChecks;
      var artifact, cuda;
      artifact, failed := Move(Artifact);
      MovedFirst(artifact, failed);
      moves, asked := MoveEvents(Artifact, artifact), MoveQuestions(Artifact, artifact, failed);
      if failed.Some? { return; }
      cuda, failed := Move(Cuda);
      MovedBoth(artifact, cuda, failed);
      moves := moves + MoveEvents(Cuda, cuda);
      asked := asked + MoveQuestions(Cuda, cuda, failed);
    }

    /** Under both locks: the last checks, and then no way back. */
    method Enqueue(a: Arguments)
      returns (refused: Outcome, attempted: bool, failure: Option<Error>,
               ghost moves: seq<Event>, ghost under: seq<Event>, ghost asked: seq<Asked>)
      requires artifactLock == Us && cudaLock == Us
      modifies this
      ensures artifactLock == Us && cudaLock == Us
      ensures Moves(moves) && trace == old(trace) + (moves + under) && questions == old(questions) + asked
      ensures !attempted ==> under == [] && !refused.Launched? && (moves != [] && refused.Declined? ==> rawStream == 0)
      ensures attempted ==> EnqueuedUnderLocks(under, a, rawStream) && failure == FirstFailure(under)
      ensures attempted && UnloadBlocked(2, true) in under ==> entry.unloadBlocked
      ensures attempted ==> Passing(asked) && ChecksOf(asked) == UnderChecks(moves, rawStream)
      ensures !attempted ==> StoppedBy(asked, refused)
      ensures Follows(ChecksOf(asked), [EntryUnchanged, Resident, CurrentContext])
      ensures Asked(Resident, No) in asked ==> !Live(old(entry))
    {
      attempted, failure, moves, under := false, None, [], [];
      var answer;
      answer, asked := CheckEntry();
      refused := Refusal(answer);
      if answer != Pass { return; }
      ghost var checked;
      failure, moves, checked := MoveBoth();
      MovesAreFew(moves);
      hide Moves, MoveChecks, EnqueuedUnderLocks, FirstFailure, Live;
      refused := if failure.Some? then Raised(failure.value) else Declined;
      AskedAfter(asked, checked, refused);
      asked := asked + checked;
      if failure.Some? { return; }
      if rawStream == 0 {
        answer := Ask(PendingStream);             // the pending streams are a set, and take this one
        refused, asked := Refusal(answer), NextAsked(asked, PendingStream, answer);
        if answer != Pass { return; }
        under := [Pending(Held())];
      }
      attempted := true;
      ghost var before := trace;
      failure, under := LaunchAndFence(a, under);
      assert old(trace) + (moves + under) == before + under;
    }

    /** No way back: the launch, its fence, and what an error blocks. */
    method LaunchAndFence(a: Arguments, ghost before: seq<Event>)
      returns (failure: Option<Error>, ghost under: seq<Event>)
      requires artifactLock == Us && cudaLock == Us && Live(entry)
      requires if rawStream == 0 then before == [Pending(2)] else before == []
      modifies this
      ensures artifactLock == Us && cudaLock == Us && trace == old(trace) + under && questions == old(questions)
      ensures EnqueuedUnderLocks(under, a, rawStream) && failure == FirstFailure(under)
      ensures UnloadBlocked(2, true) in under ==> entry.unloadBlocked
    {
      hide FirstFailure;
      NoFailure();
      ghost var live := entry;
      trace := trace + before;
      failure := Attempt((held: nat, result) => Enqueued(a, live, held, result));
      ghost var launched := Enqueued(a, live, 2, failure);
      FirstFailureNext(before, launched);
      under := before + [launched];
      if rawStream != 0 {
        if failure.None? {
          failure := Attempt((held: nat, result) => Fenced(held, result));
          FirstFailureNext(under, Fenced(2, failure));
          under := under + [Fenced(2, failure)];
        }
        if failure.Some? {
          // Setting an attribute may fail, and is then only reported.
          var refusal := Attempt((held: nat, result: Option<Error>) => UnloadBlocked(held, result.None?));
          if refusal.None? {
            entry := entry.(unloadBlocked := true);
          }
          FirstFailureNext(under, UnloadBlocked(2, refusal.None?));
          under := under + [UnloadBlocked(2, refusal.None?)];
        }
      }
    }

    /** The scope that holds the locks; every path out of it gives them back. */
    method EnqueueLocked(a: Arguments)
      returns (refused: Outcome, attempted: bool, failure: Option<Error>,
               ghost t: seq<Event>, ghost moves: seq<Event>, ghost under: seq<Event>, ghost asked: seq<Asked>)
      requires Idle()
      modifies this
      ensures Idle() && trace == old(trace) + t && questions == old(questions) + asked
      ensures !attempted ==> OnlyLocks(t) && !refused.Launched? && (|t| > 4 && refused.Declined? ==> rawStream == 0)
      ensures attempted ==> Moves(moves) && EnqueuedUnderLocks(under, a, rawStream) && failure == FirstFailure(under)
      ensures attempted ==> t == Locked(moves + under)
      ensures attempted ==> Passing(asked) && ChecksOf(asked) == LockedChecks(moves, rawStream)
      ensures !attempted ==> StoppedBy(asked, refused) && (|asked| == 1 ==> t == [])
      ensures Follows(ChecksOf(asked), LOCKED_ORDER)
    {
      attempted, failure, t, moves, under, asked := false, None, [], [], [], [];
      LockedOnce();
      LocksFollow();
      hide OnlyLocks, Moves, EnqueuedUnderLocks, FirstFailure, Locked, UnderChecks, NextAsked, Passing, StoppedBy,
        ChecksOf, Follows, LockedChecks;
      var artifact := TryLock(Artifact);
      refused, asked := Refusal(artifact), NextAsked(asked, TakeLock(Artifact), artifact);
      assert ChecksOf(asked) == [TakeLock(Artifact)];
      if artifact != Pass { return; }
      var cuda := TryLock(Cuda);
      refused, asked := Refusal(cuda), NextAsked(asked, TakeLock(Cuda), cuda);
      assert ChecksOf(asked) == [TakeLock(Artifact), TakeLock(Cuda)];
      if cuda != Pass {
        Unlock(Artifact);
        t := [Acquired(Artifact), Released(Artifact)];
        return;
      }
      ghost var checked;
      refused, attempted, failure, moves, under, checked := Enqueue(a);
      Unlock(Cuda);
      Unlock(Artifact);
      t := Locked(moves + under);
      LockedTrace(old(trace), moves + under);
      assert under == [] ==> moves + under == moves;
      LockedMoves(moves);
      AskedUnderLocks(asked, checked, refused, attempted, moves, rawStream);
      asked := asked + checked;
    }

    /** All three records and the version update, whatever fails. */
    method Finish(first: Option<Error>) returns (failure: Option<Error>, ghost after: seq<Event>)
      requires Idle()
      modifies this
      ensures Idle() && questions == old(questions)
      ensures Finished(after) && trace == old(trace) + after
      ensures failure == Either(first, FirstFailure(after))
    {
      failure, after := first, [];
      for i := 0 to 3
        invariant Idle() && |after| == i && trace == old(trace) + after
        invariant forall j :: 0 <= j < i ==> RecordOf(after[j], j)
        invariant failure == Either(first, FirstFailure(after)) && questions == old(questions)
      {
        Interfere();
        var result := Attempt((held: nat, result) => Recorded(i, held, result));
        FirstFailureNext(after, Recorded(i, 0, result));
        after := after + [Recorded(i, 0, result)];
        if failure.None? { failure := result; }
      }
      Interfere();
      var result := Attempt((held: nat, result) => Versioned(held, result));
      FirstFailureNext(after, Versioned(0, result));
      after := after + [Versioned(0, result)];
      if failure.None? { failure := result; }
    }

    /**
     A launch does nothing and says so, or attempts everything once and reports the
     first failure. The checks that it made and their answers decide which.
    */
    method Call(a: Arguments) returns (r: Outcome, ghost effects: seq<Event>, ghost asked: seq<Asked>)
      requires Idle()
      modifies this
      ensures Idle()
      ensures trace == old(trace) + effects && questions == old(questions) + asked
      ensures AllOrNothing(effects, r, a, rawStream)
      ensures !OnlyLocks(effects) ==> GeometryMatches(a, block) && NoShiftedOverlap(a, U64(a.count * elementBytes))
      ensures !OnlyLocks(effects) ==> (a.blocks - 1) * block < a.count <= a.blocks * block
      ensures !GeometryMatches(a, block) ==> r == Declined && effects == [] && asked == []
      ensures GeometryMatches(a, block) ==>
                Decides(asked, NoShiftedOverlap(a, U64(a.count * elementBytes)), effects, r, a, rawStream)
    {
      effects, asked := [], [];
      if !GeometryMatches(a, block) {
        return Declined, [], [];
      }
      GridCoversCount(a, block);
      var separate := NoShiftedOverlap(a, U64(a.count * elementBytes));
      hide GeometryMatches, NoShiftedOverlap, Decides, OnlyLocks, EnqueuedUnderLocks, Moves, Finished, FirstFailure,
        NextAsked, Passing, StoppedBy, ChecksOf, LockedChecks, Follows;
      var valid;
      valid, asked := Validate();
      if valid != Pass {
        StoppedEarly(asked, Refusal(valid), separate, a, rawStream);
        return Refusal(valid), [], asked;
      }
      if !separate {
        StoppedByOverlap(asked, a, rawStream);
        return Declined, [], asked;
      }
      var symbolsLoaded: bool := *;
      var symbols := Test(Symbols, symbolsLoaded);
      asked := NextAsked(asked, Symbols, symbols);
      if !symbolsLoaded {
        StoppedEarly(asked, Declined, separate, a, rawStream);
        return Declined, [], asked;
      }
      var refused, attempted, failure, t, moves, under, locked := EnqueueLocked(a);
      ghost var before := asked;
      asked := before + locked;
      if !attempted {
        StoppedAtLocks(before, locked, refused, t, separate, a, rawStream);
        return refused, t, asked;
      }
      ghost var after: seq<Event>;
      failure, after := Finish(failure);
      effects := t + after;
      FailureOfAttempt(moves, under, after);
      r := OutcomeOf(failure);
      PassedToTheEnd(before, locked, moves, under, after, r, a, rawStream);
    }
  }

  lemma StoppedEarly(asked: seq<Asked>, r: Outcome, separate: bool, a: Arguments, rawStream: nat)
    requires StoppedBy(asked, r) && ChecksOf(asked) <= BEFORE_THE_LOCKS + [Symbols]
    ensures !r.Launched? && OnlyLocks([]) && Decides(asked, separate, [], r, a, rawStream)
    ensures AllOrNothing([], r, a, rawStream)
  {
    hide Moves, AttemptedAfter;
    assert forall i :: 0 <= i < |asked| ==> ChecksOf(asked)[i] == (BEFORE_THE_LOCKS + [Symbols])[i];
  }

  lemma StoppedByOverlap(asked: seq<Asked>, a: Arguments, rawStream: nat)
    requires Passing(asked) && ChecksOf(asked) == BEFORE_THE_LOCKS
    ensures OnlyLocks([]) && Decides(asked, false, [], Declined, a, rawStream)
    ensures AllOrNothing([], Declined, a, rawStream)
  {
    hide Moves, AttemptedAfter;
  }

  lemma StoppedAtLocks(before: seq<Asked>, locked: seq<Asked>, r: Outcome, t: seq<Event>, separate: bool, a: Arguments,
                       rawStream: nat)
    requires Passing(before) && ChecksOf(before) == BEFORE_THE_LOCKS + [Symbols] && StoppedBy(locked, r)
    requires Follows(ChecksOf(locked), LOCKED_ORDER)
    requires OnlyLocks(t) && (|locked| == 1 ==> t == [])
    ensures Decides(before + locked, separate, t, r, a, rawStream)
  {
    hide Moves, OnlyLocks, AttemptedAfter;
    AskedAfter(before, locked, r);
    FollowsConcat(ChecksOf(before), ChecksOf(locked), LOCKED_ORDER);
    assert !Passing(before + locked);
  }

  lemma PassedToTheEnd(before: seq<Asked>, locked: seq<Asked>, moves: seq<Event>, under: seq<Event>, after: seq<Event>,
                       r: Outcome, a: Arguments, rawStream: nat)
    requires Passing(before) && ChecksOf(before) == BEFORE_THE_LOCKS + [Symbols]
    requires Passing(locked) && ChecksOf(locked) == LockedChecks(moves, rawStream)
    requires Moves(moves) && EnqueuedUnderLocks(under, a, rawStream) && Finished(after)
    requires r == OutcomeOf(FirstFailure(Locked(moves + under) + after))
    ensures Decides(before + locked, true, Locked(moves + under) + after, r, a, rawStream)
    ensures AllOrNothing(Locked(moves + under) + after, r, a, rawStream)
  {
    hide Moves, OnlyLocks, EnqueuedUnderLocks, Finished, FirstFailure, Locked, MoveChecks;
    var t := Locked(moves + under) + after;
    AskedAfter(before, locked, r);
    assert IsAttempt(t, moves, under, after, a, rawStream);
    FollowsConcat(ChecksOf(before), ChecksOf(locked), LOCKED_ORDER);
  }

  lemma {:induction false} FirstFailureNone(t: seq<Event>)
    requires forall i :: 0 <= i < |t| ==> Result(t[i]).None?
    ensures FirstFailure(t).None?
  {
    if t != [] { FirstFailureNone(t[..|t| - 1]); }
  }

  /** Taking and giving back locks and reordering the caches fails nothing. */
  lemma FailureOfAttempt(moves: seq<Event>, under: seq<Event>, after: seq<Event>)
    requires Moves(moves)
    ensures FirstFailure(Locked(moves + under) + after) == Either(FirstFailure(under), FirstFailure(after))
  {
    hide FirstFailure, Locked, Moves;
    MovesFailNothing(moves);
    FailureOfLocked(moves + under);
    FirstFailureConcat(moves, under);
    FirstFailureConcat(Locked(moves + under), after);
  }

  lemma MovesFailNothing(moves: seq<Event>)
    requires Moves(moves)
    ensures FirstFailure(moves).None?
  {
    FirstFailureNone(moves);
    hide FirstFailure;
  }

  lemma FailureOfLocked(inside: seq<Event>)
    ensures FirstFailure(Locked(inside)) == FirstFailure(inside)
  {
    var before, between := [Acquired(Artifact), Acquired(Cuda)], [Released(Cuda), Released(Artifact)];
    hide FirstFailure;
    FirstFailureNone(before);
    FirstFailureNone(between);
    FirstFailureConcat(before, inside);
    FirstFailureConcat(before + inside, between);
  }

  // ------------------------------------------------ what an attempt amounts to

  predicate IsAcquired(e: Event) { e.Acquired? }
  predicate IsReleased(e: Event) { e.Released? }
  predicate IsEnqueued(e: Event) { e.Enqueued? }
  predicate IsFenced(e: Event) { e.Fenced? }
  predicate IsRecorded(e: Event) { e.Recorded? }
  predicate IsVersioned(e: Event) { e.Versioned? }

  /** How often an effect happened. */
  function Count(t: seq<Event>, of: Event -> bool): nat {
    if t == [] then 0 else Count(t[..|t| - 1], of) + if of(t[|t| - 1]) then 1 else 0
  }

  lemma {:induction false} CountConcat(s: seq<Event>, t: seq<Event>, of: Event -> bool)
    ensures Count(s + t, of) == Count(s, of) + Count(t, of)
  {
    if t == [] {
      assert s + t == s;
    } else {
      assert (s + t)[..|s + t| - 1] == s + t[..|t| - 1];
      CountConcat(s, t[..|t| - 1], of);
    }
  }

  lemma {:induction false} CountNone(t: seq<Event>, of: Event -> bool)
    requires forall i :: 0 <= i < |t| ==> !of(t[i])
    ensures Count(t, of) == 0
  {
    if t != [] { CountNone(t[..|t| - 1], of); }
  }

  lemma CountTwo(e: Event, f: Event, of: Event -> bool)
    ensures Count([e, f], of) == (if of(e) then 1 else 0) + if of(f) then 1 else 0
  {
    var one, two := [e], [e, f];
    assert one[..|one| - 1] == [] && two[..|two| - 1] == one;
    assert Count(one, of) == if of(e) then 1 else 0;
  }

  lemma CountLocked(inside: seq<Event>, of: Event -> bool)
    ensures Count(Locked(inside), of)
         == (if of(Acquired(Artifact)) then 1 else 0) + (if of(Acquired(Cuda)) then 1 else 0) + Count(inside, of)
          + (if of(Released(Cuda)) then 1 else 0) + if of(Released(Artifact)) then 1 else 0
  {
    var before, between := [Acquired(Artifact), Acquired(Cuda)], [Released(Cuda), Released(Artifact)];
    CountConcat(before, inside, of);
    CountConcat(before + inside, between, of);
    CountTwo(Acquired(Artifact), Acquired(Cuda), of);
    CountTwo(Released(Cuda), Released(Artifact), of);
  }

  lemma CountUnder(under: seq<Event>, a: Arguments, rawStream: nat)
    requires EnqueuedUnderLocks(under, a, rawStream)
    ensures Count(under, IsEnqueued) == 1
    ensures Count(under, IsFenced) <= 1 && (Count(under, IsFenced) == 1 ==> rawStream != 0)
    ensures forall i :: 0 <= i < |under| ==>
              !under[i].Acquired? && !under[i].Released? && !under[i].Recorded? && !under[i].Versioned?
  {
    var two := under[..2];
    assert two == [under[0], under[1]];
    CountTwo(under[0], under[1], IsEnqueued);
    CountTwo(under[0], under[1], IsFenced);
    if |under| == 3 {
      assert under == two + [under[2]] && [under[2]][..0] == [];
      CountConcat(two, [under[2]], IsEnqueued);
      CountConcat(two, [under[2]], IsFenced);
    } else {
      assert under == two;
    }
  }

  lemma CountAfter(after: seq<Event>)
    requires Finished(after)
    ensures Count(after, IsRecorded) == 3 && Count(after, IsVersioned) == 1
    ensures forall i :: 0 <= i < |after| ==> after[i].Recorded? || after[i].Versioned?
  {
    assert RecordOf(after[0], 0) && RecordOf(after[1], 1) && RecordOf(after[2], 2);
    assert after == [after[0], after[1]] + [after[2], after[3]];
    CountTwo(after[0], after[1], IsRecorded);
    CountTwo(after[2], after[3], IsRecorded);
    CountTwo(after[0], after[1], IsVersioned);
    CountTwo(after[2], after[3], IsVersioned);
    CountConcat([after[0], after[1]], [after[2], after[3]], IsRecorded);
    CountConcat([after[0], after[1]], [after[2], after[3]], IsVersioned);
  }

  /** Effects before the device work is enqueued and fenced need both locks; the records need none. */
  predicate HeldAsNeeded(e: Event) {
    && (e.Enqueued? ==>
          && e.entry.cacheResident && e.entry.loadedCached && e.entry.artifactCached && e.entry.retired == 0
          && !e.entry.unloading && !e.entry.unloaded && !e.entry.unloadBlocked)
    && (e.Moved? || e.Pending? || e.Enqueued? || e.Fenced? || e.UnloadBlocked? ==> e.held == 2)
    && (e.Recorded? || e.Versioned? ==> e.held == 0)
  }

  lemma HeldInAttempt(t: seq<Event>, moves: seq<Event>, under: seq<Event>, after: seq<Event>, a: Arguments,
                      rawStream: nat)
    requires IsAttempt(t, moves, under, after, a, rawStream)
    ensures forall i :: 0 <= i < |t| ==> HeldAsNeeded(t[i])
  {
    assert forall i :: 0 <= i < |moves| ==> HeldAsNeeded(moves[i]);
    assert RecordOf(after[0], 0) && RecordOf(after[1], 1) && RecordOf(after[2], 2);
    assert forall i :: 0 <= i < |under| ==> HeldAsNeeded(under[i]);
    assert forall i :: 0 <= i < |after| ==> HeldAsNeeded(after[i]);
  }

  /** At most one launch; with it, and only with it, three records and one version update; every lock is given back. */
  lemma EffectsOfCall(t: seq<Event>, r: Outcome, a: Arguments, rawStream: nat)
    requires AllOrNothing(t, r, a, rawStream)
    ensures var n := Count(t, IsEnqueued);
            && n <= 1 && Count(t, IsRecorded) == 3 * n && Count(t, IsVersioned) == n
            && Count(t, IsFenced) <= (if rawStream == 0 then 0 else n)
            && Count(t, IsAcquired) == Count(t, IsReleased)
            && (n == 0 ==> !r.Launched?) && (n == 1 ==> r == OutcomeOf(FirstFailure(t)))
    ensures forall i :: 0 <= i < |t| ==> HeldAsNeeded(t[i])
  {
    if OnlyLocks(t) {
      CountOnlyLocks(t);
    } else {
      var moves, under, after :| IsAttempt(t, moves, under, after, a, rawStream);
      HeldInAttempt(t, moves, under, after, a, rawStream);
      CountsOfAttempt(t, moves, under, after, a, rawStream);
    }
  }

  lemma CountOnlyLocks(t: seq<Event>)
    requires OnlyLocks(t)
    ensures Count(t, IsEnqueued) == Count(t, IsFenced) == Count(t, IsRecorded) == Count(t, IsVersioned) == 0
    ensures Count(t, IsAcquired) == Count(t, IsReleased)
    ensures forall i :: 0 <= i < |t| ==> HeldAsNeeded(t[i])
  {
    if moves: seq<Event> :| IsLockedMoves(t, moves) {
      NoneOfMoves(moves);
      LockedCounts(moves);
      HeldInMoves(moves);
      hide Count, Moves, Locked, HeldAsNeeded;
    } else {
      CountUnlocked(t);
    }
  }

  lemma CountUnlocked(t: seq<Event>)
    requires t == [] || t == [Acquired(Artifact), Released(Artifact)]
    ensures Count(t, IsEnqueued) == Count(t, IsFenced) == Count(t, IsRecorded) == Count(t, IsVersioned) == 0
    ensures Count(t, IsAcquired) == Count(t, IsReleased)
  {
    CountNone(t, IsEnqueued);
    CountNone(t, IsFenced);
    CountNone(t, IsRecorded);
    CountNone(t, IsVersioned);
    CountTwo(Acquired(Artifact), Released(Artifact), IsAcquired);
    CountTwo(Acquired(Artifact), Released(Artifact), IsReleased);
  }

  lemma HeldInMoves(moves: seq<Event>)
    requires Moves(moves)
    ensures forall i :: 0 <= i < |Locked(moves)| ==> HeldAsNeeded(Locked(moves)[i])
  {
    assert forall i :: 0 <= i < |moves| ==> HeldAsNeeded(moves[i]);
    hide Moves;
  }

  /** Reordering a cache is none of the counted effects. */
  lemma NoneOfMoves(moves: seq<Event>)
    requires Moves(moves)
    ensures Count(moves, IsEnqueued)
         == Count(moves, IsFenced) == Count(moves, IsRecorded) == Count(moves, IsVersioned) == 0
    ensures Count(moves, IsAcquired) == Count(moves, IsReleased) == 0
  {
    CountNone(moves, IsEnqueued);
    CountNone(moves, IsFenced);
    CountNone(moves, IsRecorded);
    CountNone(moves, IsVersioned);
    CountNone(moves, IsAcquired);
    CountNone(moves, IsReleased);
  }

  lemma LockedCounts(inside: seq<Event>)
    ensures Count(Locked(inside), IsEnqueued) == Count(inside, IsEnqueued)
    ensures Count(Locked(inside), IsFenced) == Count(inside, IsFenced)
    ensures Count(Locked(inside), IsRecorded) == Count(inside, IsRecorded)
    ensures Count(Locked(inside), IsVersioned) == Count(inside, IsVersioned)
    ensures Count(Locked(inside), IsAcquired) == Count(inside, IsAcquired) + 2
    ensures Count(Locked(inside), IsReleased) == Count(inside, IsReleased) + 2
  {
    CountLocked(inside, IsEnqueued);
    CountLocked(inside, IsFenced);
    CountLocked(inside, IsRecorded);
    CountLocked(inside, IsVersioned);
    CountLocked(inside, IsAcquired);
    CountLocked(inside, IsReleased);
    hide Count, Locked;
  }

  lemma CountsOfAttempt(t: seq<Event>, moves: seq<Event>, under: seq<Event>, after: seq<Event>, a: Arguments,
                        rawStream: nat)
    requires IsAttempt(t, moves, under, after, a, rawStream)
    ensures Count(t, IsEnqueued) == 1 && Count(t, IsRecorded) == 3 && Count(t, IsVersioned) == 1
    ensures Count(t, IsFenced) <= if rawStream == 0 then 0 else 1
    ensures Count(t, IsAcquired) == Count(t, IsReleased)
  {
    CountUnder(under, a, rawStream);
    CountAfter(after);
    NoneOfMoves(moves);
    LockedCounts(moves + under);
    SumOfCounts(moves, under, after, IsEnqueued);
    SumOfCounts(moves, under, after, IsRecorded);
    SumOfCounts(moves, under, after, IsVersioned);
    SumOfCounts(moves, under, after, IsFenced);
    SumOfCounts(moves, under, after, IsAcquired);
    SumOfCounts(moves, under, after, IsReleased);
    CountNone(after, IsEnqueued);
    CountNone(after, IsFenced);
    CountNone(after, IsAcquired);
    CountNone(after, IsReleased);
    CountNone(under, IsRecorded);
    CountNone(under, IsVersioned);
    CountNone(under, IsAcquired);
    CountNone(under, IsReleased);
    hide Count, Locked, EnqueuedUnderLocks, Finished;
  }

  lemma SumOfCounts(moves: seq<Event>, under: seq<Event>, after: seq<Event>, of: Event -> bool)
    ensures Count(Locked(moves + under) + after, of) == Count(Locked(moves + under), of) + Count(after, of)
    ensures Count(moves + under, of) == Count(moves, of) + Count(under, of)
  {
    CountConcat(Locked(moves + under), after, of);
    CountConcat(moves, under, of);
  }

  /** Two active ranges have no byte in common. */
  ghost predicate Disjoint(x: nat, y: nat, bytes: nat) {
    forall i :: !(InRange(i, x, bytes) && InRange(i, y, bytes))
  }

  predicate InRange(i: int, start: nat, bytes: nat) {
    start <= i < start + bytes
  }

  lemma DistanceIff(x: nat, y: nat, bytes: nat)
    ensures !(Distance(x, y) != 0 && Distance(x, y) < bytes) <==> x == y || Disjoint(x, y, bytes)
  {
    if x != y && Distance(x, y) < bytes {
      var first := if x < y then y else x;
      assert InRange(first, x, bytes) && InRange(first, y, bytes);
    }
  }

  /** The overlap check passes exactly when each input is the output itself or shares no active byte with it. */
  lemma NoShiftedOverlapIff(a: Arguments, bytes: nat)
    ensures NoShiftedOverlap(a, bytes)
       <==> ((a.input0 == a.output || Disjoint(a.input0, a.output, bytes))
             && (a.input1 == a.output || Disjoint(a.input1, a.output, bytes)))
  {
    DistanceIff(a.input0, a.output, bytes);
    DistanceIff(a.input1, a.output, bytes);
    hide Distance, Disjoint;
  }

  /** The grid of a launch covers the count, and its last block is needed. */
  lemma GridCoversCount(a: Arguments, block: nat)
    requires block > 0 && GeometryMatches(a, block)
    ensures (a.blocks - 1) * block < a.count <= a.blocks * block
  {
  }
}
