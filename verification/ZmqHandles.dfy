/**
 Ownership of native handles in the ZMQ wrapper classes.
 */
module ZmqHandles {
  import opened Optional

  /** Operations on wrapper objects, which are numbered; a move or swap may name one object twice. */
  datatype Operation =
    | Construct(i: nat, succeeds: bool)
    | ConstructNull(i: nat)
    | MoveConstruct(i: nat, from: nat)
    | MoveAssign(i: nat, from: nat)
    | Swap(i: nat, j: nat)
    | Close(i: nat)
    | Rebuild(i: nat, succeeds: bool)
    | Destroy(i: nat)

  /**
   What the library and the live wrapper objects of one kind hold.  A socket or context
   wrapper may be null, after a move or close for instance; a message wrapper holds an
   initialized message unless a rebuild closed it and could not initialize it again.
   */
  datatype Native = Native(
    handles: map<nat, Option<nat>>,  // per live object: its native handle or null
    acquired: nat,                   // handles 0..acquired-1 have been handed out by the library
    released: seq<nat>,              // in order of release
    failures: nat,                   // rebuilds that left a closed message
    badCloses: nat)                  // native closes of a closed message

  /** What the language requires: objects are constructed once and used while they live. */
  predicate Permitted(messages: bool, n: Native, op: Operation) {
    match op
    case Construct(i, _) => i !in n.handles
    case ConstructNull(i) => i !in n.handles && !messages
    case MoveConstruct(i, from) => i !in n.handles && from in n.handles
    case MoveAssign(i, from) => i in n.handles && from in n.handles
    case Swap(i, j) => i in n.handles && j in n.handles
    case Close(i) => i in n.handles && !messages
    case Rebuild(i, _) => i in n.handles && messages
    case Destroy(i) => i in n.handles
  }

  function Handed(h: Option<nat>): seq<nat> {
    if h.Some? then [h.value] else []
  }

  /** Object i gives its handle back and is left null. */
  function Released(n: Native, i: nat): Native
    requires i in n.handles
  {
    n.(handles := n.handles[i := None], released := n.released + Handed(n.handles[i]))
  }

  /** Object i gets a new handle. */
  function Acquired(n: Native, i: nat): Native {
    n.(handles := n.handles[i := Some(n.acquired)], acquired := n.acquired + 1)
  }

  function Swapped(n: Native, i: nat, j: nat): Native
    requires i in n.handles && j in n.handles
  {
    n.(handles := n.handles[i := n.handles[j]][j := n.handles[i]])
  }

  /** The effect of one operation. */
  function After(messages: bool, n: Native, op: Operation): Native
    requires Permitted(messages, n, op)
  {
    match op
    case Construct(i, succeeds) => if succeeds then Acquired(n, i) else n
    case ConstructNull(i) => n.(handles := n.handles[i := None])
    case MoveConstruct(i, from) =>
      // the new object takes the handle; the old one is null or, for a message, initialized anew
      var left := if messages then Acquired(n, from) else n.(handles := n.handles[from := None]);
      left.(handles := left.handles[i := n.handles[from]])
    case MoveAssign(i, from) =>
      // messages change places; a socket or context gives its own handle back first
      if messages then Swapped(n, i, from)
      else if i == from then Released(n, i)
      else Released(n, i).(handles := n.handles[i := n.handles[from]][from := None])
    case Swap(i, j) => Swapped(n, i, j)
    case Close(i) => Released(n, i)
    case Rebuild(i, succeeds) =>
      // a closed message cannot be closed and stays as it is
      if n.handles[i].None? then n.(badCloses := n.badCloses + 1)
      else if succeeds then Acquired(Released(n, i), i)
      else Released(n, i).(failures := n.failures + 1)
    case Destroy(i) =>
      n.(handles := n.handles - {i}, released := n.released + Handed(n.handles[i]),
         badCloses := n.badCloses + (if messages && n.handles[i].None? then 1 else 0))
  }

  /** Any program: operations that the language does not permit do not occur. */
  function AfterOps(messages: bool, n: Native, ops: seq<Operation>): Native {
    if ops == [] then n
    else
      var before, op := AfterOps(messages, n, ops[..|ops| - 1]), ops[|ops| - 1];
      if Permitted(messages, before, op) then After(messages, before, op) else before
  }

  class Wrappers {
    const messages: bool
    var handles: map<nat, Option<nat>>
    var acquired: nat
    var released: seq<nat>
    var failures: nat
    var badCloses: nat

    ghost function State(): Native
      reads this
    {
      Native(handles, acquired, released, failures, badCloses)
    }

    constructor (messages: bool)
      ensures this.messages == messages && State() == Native(map[], 0, [], 0, 0)
    {
      this.messages := messages;
      handles, acquired, released, failures, badCloses := map[], 0, [], 0, 0;
    }

    /** A native close on the object's handle, if it has one. */
    method Release(i: nat)
      requires i in handles
      modifies this`handles, this`released
      ensures State() == Released(old(State()), i)
    {
      if handles[i].None? {
        assert handles == handles[i := None];
        return;
      }
      released := released + [handles[i].value];
      handles := handles[i := None];
    }

    method SwapHandles(i: nat, j: nat)
      requires i in handles && j in handles
      modifies this`handles
      ensures State() == Swapped(old(State()), i, j)
    {
      var mine := handles[i];
      handles := handles[i := handles[j]][j := mine];
    }

    method Acquire(i: nat)
      modifies this`handles, this`acquired
      ensures State() == Acquired(old(State()), i)
    {
      handles := handles[i := Some(acquired)];
      acquired := acquired + 1;
    }

    /** The move constructors: the handle is copied and the old object is reset. */
    method Take(i: nat, from: nat)
      requires i !in handles && from in handles
      modifies this`handles, this`acquired
      ensures State() == After(messages, old(State()), MoveConstruct(i, from))
      ensures handles[i] == old(handles[from])
      ensures handles[from] == if messages then Some(old(acquired)) else None
    {
      handles := handles[i := handles[from]];
      if messages {
        Acquire(from);
      } else {
        handles := handles[from := None];
      }
      assert handles == (old(handles)[from := handles[from]])[i := old(handles[from])];
    }

    /** The move assignments: messages are swapped, sockets and contexts close first and then swap. */
    method Assign(i: nat, from: nat)
      requires i in handles && from in handles
      modifies this`handles, this`released
      ensures State() == After(messages, old(State()), MoveAssign(i, from))
    {
      if !messages {
        Release(i);
      }
      ghost var before := handles;
      SwapHandles(i, from);
      if !messages && i == from {
        assert handles == before;
      }
      if !messages && i != from {
        assert handles == old(handles)[i := old(handles)[from]][from := None];
      }
    }

    method RebuildMessage(i: nat, succeeds: bool)
      requires messages && i in handles
      modifies this
      ensures State() == After(messages, old(State()), Rebuild(i, succeeds))
    {
      if handles[i].None? {
        badCloses := badCloses + 1;
        return;
      }
      Release(i);
      if succeeds {
        Acquire(i);
      } else {
        failures := failures + 1;
      }
    }

    /** The destructor: a native close on whatever the object holds. */
    method DestroyObject(i: nat)
      requires i in handles
      modifies this`handles, this`released, this`badCloses
      ensures State() == After(messages, old(State()), Destroy(i))
    {
      if messages && handles[i].None? {
        badCloses := badCloses + 1;
      }
      Release(i);
      handles := handles - {i};
      assert handles == old(handles) - {i};
    }

    method Execute(op: Operation)
      requires Permitted(messages, State(), op)
      modifies this
      ensures State() == After(messages, old(State()), op)
    {
      match op {
        case Construct(i, succeeds) =>
          if succeeds {
            Acquire(i);
          }
        case ConstructNull(i) =>
          handles := handles[i := None];
        case MoveConstruct(i, from) =>
          Take(i, from);
        case MoveAssign(i, from) =>
          Assign(i, from);
        case Swap(i, j) =>
          SwapHandles(i, j);
        case Close(i) =>
          Release(i);
        case Rebuild(i, succeeds) =>
          RebuildMessage(i, succeeds);
        case Destroy(i) =>
          DestroyObject(i);
      }
    }

    /** Any program on the wrappers. */
    method Run(ops: seq<Operation>)
      modifies this
      ensures State() == AfterOps(messages, old(State()), ops)
    {
      var k := 0;
      while k < |ops|
        invariant 0 <= k <= |ops| && State() == AfterOps(messages, old(State()), ops[..k])
      {
        if PermittedNow(ops[k]) {
          Execute(ops[k]);
        }
        assert ops[..k + 1][..k] == ops[..k];
        k := k + 1;
      }
      assert ops[..k] == ops;
    }

    predicate PermittedNow(op: Operation)
      reads this
    {
      Permitted(messages, Native(handles, acquired, released, failures, badCloses), op)
    }
  }

  // Who holds what afterwards ----------------------------------------------------------

  /** Every object but those named is as it was. */
  ghost predicate OthersStay(n: Native, t: Native, changed: set<nat>) {
    forall k :: k !in changed ==>
      (k in t.handles <==> k in n.handles) && (k in n.handles ==> t.handles[k] == n.handles[k])
  }

  /** What was released, in addition to what had been before. */
  ghost predicate Gives(n: Native, t: Native, handle: Option<nat>) {
    t.released == match handle case Some(h) => n.released + [h] case None => n.released
  }

  lemma ConstructHolds(messages: bool, n: Native, i: nat, succeeds: bool)
    requires i !in n.handles
    ensures var t := After(messages, n, Construct(i, succeeds));
            && OthersStay(n, t, {i}) && t.released == n.released
            && (succeeds ==> i in t.handles && t.handles[i] == Some(n.acquired) && t.acquired == n.acquired + 1)
            && (!succeeds ==> i !in t.handles && t.acquired == n.acquired)
  {
  }

  lemma MoveConstructPasses(messages: bool, n: Native, i: nat, from: nat)
    requires i !in n.handles && from in n.handles
    ensures var t := After(messages, n, MoveConstruct(i, from));
            && OthersStay(n, t, {i, from}) && t.released == n.released
            && i in t.handles && t.handles[i] == n.handles[from]
            && from in t.handles && t.handles[from] == (if messages then Some(n.acquired) else None)
            && t.acquired == n.acquired + (if messages then 1 else 0)
  {
  }

  /** Messages are exchanged; a socket or context gives its own handle back and takes the other's. */
  lemma MoveAssignPasses(messages: bool, n: Native, i: nat, from: nat)
    requires i in n.handles && from in n.handles
    ensures var t := After(messages, n, MoveAssign(i, from));
            && OthersStay(n, t, {i, from}) && t.acquired == n.acquired
            && i in t.handles && from in t.handles
            && (messages ==>
                  t.handles[i] == n.handles[from] && t.handles[from] == n.handles[i] && t.released == n.released)
            && (!messages && i != from ==>
                  t.handles[i] == n.handles[from] && t.handles[from] == None && Gives(n, t, n.handles[i]))
            && (!messages && i == from ==> t.handles[i] == None && Gives(n, t, n.handles[i]))
  {
  }

  lemma SwapExchanges(messages: bool, n: Native, i: nat, j: nat)
    requires i in n.handles && j in n.handles
    ensures var t := After(messages, n, Swap(i, j));
            && OthersStay(n, t, {i, j}) && t.released == n.released && t.acquired == n.acquired
            && i in t.handles && t.handles[i] == n.handles[j]
            && j in t.handles && t.handles[j] == n.handles[i]
  {
  }

  lemma CloseReleases(n: Native, i: nat)
    requires i in n.handles
    ensures var t := After(false, n, Close(i));
            && OthersStay(n, t, {i}) && t.acquired == n.acquired
            && i in t.handles && t.handles[i] == None && Gives(n, t, n.handles[i])
  {
  }

  lemma RebuildRenews(n: Native, i: nat, succeeds: bool)
    requires i in n.handles
    ensures var t := After(true, n, Rebuild(i, succeeds));
            && OthersStay(n, t, {i}) && i in t.handles && Gives(n, t, n.handles[i])
            && (n.handles[i].Some? && succeeds ==>
                  t.handles[i] == Some(n.acquired) && t.acquired == n.acquired + 1 && t.failures == n.failures)
            && (n.handles[i].Some? && !succeeds ==>
                  t.handles[i] == None && t.acquired == n.acquired && t.failures == n.failures + 1)
            && (n.handles[i].None? ==> t == n.(badCloses := n.badCloses + 1))
  {
  }

  lemma DestroyReleases(messages: bool, n: Native, i: nat)
    requires i in n.handles
    ensures var t := After(messages, n, Destroy(i));
            && OthersStay(n, t, {i}) && i !in t.handles && t.acquired == n.acquired && Gives(n, t, n.handles[i])
            && t.badCloses == n.badCloses + (if messages && n.handles[i] == None then 1 else 0)
  {
  }

  // One owner, one release ----------------------------------------------------------

  /** Every acquired handle has one owner or has been released, once. */
  ghost predicate Owned(n: Native) {
    && (forall i, j :: i in n.handles && j in n.handles && i != j && n.handles[i].Some? ==>
          n.handles[i] != n.handles[j])
    && (forall i :: i in n.handles && n.handles[i].Some? ==>
          n.handles[i].value < n.acquired && n.handles[i].value !in n.released)
    && (forall h :: 0 <= h < n.acquired ==> h in n.released || HasOwner(n, h))
    && (forall h :: h in n.released ==> h < n.acquired)
    && (forall a, b :: 0 <= a < b < |n.released| ==> n.released[a] != n.released[b])
  }

  ghost predicate HasOwner(n: Native, h: nat) {
    exists i :: i in n.handles && n.handles[i] == Some(h)
  }

  ghost predicate NoneEmpty(n: Native) {
    forall i :: i in n.handles ==> n.handles[i].Some?
  }

  /** A failed rebuild shows in a closed message or in the attempt to close one. */
  ghost predicate Valid(messages: bool, n: Native) {
    && Owned(n)
    && (messages ==> (n.failures == 0 <==> n.badCloses == 0 && NoneEmpty(n)))
    && (!messages ==> n.failures == 0 && n.badCloses == 0)
  }

  lemma ReleaseKeepsOwners(n: Native, i: nat)
    requires Owned(n) && i in n.handles
    ensures Owned(Released(n, i))
  {
    var r := Released(n, i);
    forall h | 0 <= h < r.acquired
      ensures h in r.released || HasOwner(r, h)
    {
      if h !in n.released && n.handles[i] != Some(h) {
        var k :| k in n.handles && n.handles[k] == Some(h);
        assert r.handles[k] == Some(h);
      }
    }
  }

  /** A new handle, for a new object or for one without a handle. */
  lemma AcquireKeepsOwners(n: Native, i: nat)
    requires Owned(n) && (i in n.handles ==> n.handles[i].None?)
    ensures Owned(Acquired(n, i))
  {
    var r := Acquired(n, i);
    assert r.handles[i] == Some(n.acquired);
    forall h | 0 <= h < r.acquired
      ensures h in r.released || HasOwner(r, h)
    {
      if h < n.acquired && h !in n.released {
        var k :| k in n.handles && n.handles[k] == Some(h);
        assert r.handles[k] == Some(h);
      }
    }
  }

  lemma SwapKeepsOwners(n: Native, i: nat, j: nat)
    requires Owned(n) && i in n.handles && j in n.handles
    ensures Owned(Swapped(n, i, j))
  {
    var r := Swapped(n, i, j);
    SwapMoves(n.handles, i, j);
    forall h | 0 <= h < r.acquired
      ensures h in r.released || HasOwner(r, h)
    {
      if h !in n.released {
        var k :| k in n.handles && n.handles[k] == Some(h);
        assert r.handles[Other(i, j, k)] == Some(h);
      }
    }
  }

  function Other(i: nat, j: nat, k: nat): nat {
    if k == i then j else if k == j then i else k
  }

  /** Object k gets what its counterpart had. */
  lemma SwapMoves(handles: map<nat, Option<nat>>, i: nat, j: nat)
    requires i in handles && j in handles
    ensures var after := handles[i := handles[j]][j := handles[i]];
            after.Keys == handles.Keys && forall k :: k in handles ==> after[k] == handles[Other(i, j, k)]
  {
  }

  lemma SwapKeepsEmpties(n: Native, i: nat, j: nat)
    requires i in n.handles && j in n.handles
    ensures NoneEmpty(Swapped(n, i, j)) <==> NoneEmpty(n)
  {
    var r := Swapped(n, i, j);
    assert r.handles[i] == n.handles[j] && r.handles[j] == n.handles[i];
    assert forall k :: k in n.handles && k != i && k != j ==> r.handles[k] == n.handles[k];
  }

  /** Null objects come and go. */
  lemma NullComes(n: Native, i: nat)
    requires Owned(n) && (i in n.handles ==> n.handles[i].None?)
    ensures Owned(n.(handles := n.handles[i := None]))
  {
    var r := n.(handles := n.handles[i := None]);
    forall h | 0 <= h < n.acquired && h !in n.released
      ensures HasOwner(r, h)
    {
      var k :| k in n.handles && n.handles[k] == Some(h);
      assert r.handles[k] == Some(h);
    }
  }

  lemma NullGoes(n: Native, i: nat)
    requires Owned(n) && i in n.handles && n.handles[i].None?
    ensures Owned(n.(handles := n.handles - {i}))
  {
    var r := n.(handles := n.handles - {i});
    forall h | 0 <= h < n.acquired && h !in n.released
      ensures HasOwner(r, h)
    {
      var k :| k in n.handles && n.handles[k] == Some(h);
      assert r.handles[k] == Some(h);
    }
  }

  /** A handle for a new object, or in the place of another, empties and fills nothing. */
  lemma FillKeepsEmpties(n: Native, i: nat)
    requires i in n.handles ==> n.handles[i].Some?
    ensures NoneEmpty(Acquired(n, i)) <==> NoneEmpty(n)
  {
    assert forall k :: k in n.handles && k != i ==> Acquired(n, i).handles[k] == n.handles[k];
  }

  /** The objects after a new one was added, with a handle of its own for a message. */
  function Grown(messages: bool, n: Native, i: nat): Native {
    if messages then Acquired(n, i) else n.(handles := n.handles[i := None])
  }

  /** Moving out of an object is adding one and swapping. */
  lemma MoveIsSwap(messages: bool, n: Native, i: nat, from: nat)
    requires i !in n.handles && from in n.handles
    ensures After(messages, n, MoveConstruct(i, from)) == Swapped(Grown(messages, n, i), i, from)
  {
    var grown, moved := Grown(messages, n, i), After(messages, n, MoveConstruct(i, from));
    assert Swapped(grown, i, from).handles == moved.handles;
  }

  lemma GrowingKeeps(messages: bool, n: Native, i: nat)
    requires Valid(messages, n) && i !in n.handles
    ensures Valid(messages, Grown(messages, n, i))
  {
    if messages {
      AcquireKeepsOwners(n, i);
      FillKeepsEmpties(n, i);
    } else {
      NullComes(n, i);
    }
  }

  lemma MoveConstructKeeps(messages: bool, n: Native, i: nat, from: nat)
    requires Valid(messages, n) && i !in n.handles && from in n.handles
    ensures Valid(messages, After(messages, n, MoveConstruct(i, from)))
  {
    var grown := Grown(messages, n, i);
    GrowingKeeps(messages, n, i);
    SwapKeepsOwners(grown, i, from);
    SwapKeepsEmpties(grown, i, from);
    MoveIsSwap(messages, n, i, from);
  }

  lemma MoveAssignKeeps(messages: bool, n: Native, i: nat, from: nat)
    requires Valid(messages, n) && i in n.handles && from in n.handles
    ensures Valid(messages, After(messages, n, MoveAssign(i, from)))
  {
    if messages {
      SwapKeepsOwners(n, i, from);
      SwapKeepsEmpties(n, i, from);
    } else {
      ReleaseKeepsOwners(n, i);
      if i != from {
        SwapKeepsOwners(Released(n, i), i, from);
        assert Swapped(Released(n, i), i, from).handles == After(messages, n, MoveAssign(i, from)).handles;
      }
    }
  }

  lemma RebuildKeeps(n: Native, i: nat, succeeds: bool)
    requires Valid(true, n) && i in n.handles
    ensures Valid(true, After(true, n, Rebuild(i, succeeds)))
  {
    if n.handles[i].Some? {
      ReleaseKeepsOwners(n, i);
      if succeeds {
        AcquireKeepsOwners(Released(n, i), i);
        FillKeepsEmpties(n, i);
        assert Acquired(Released(n, i), i).handles == Acquired(n, i).handles;
      } else {
        assert Released(n, i).handles[i].None?;
      }
    }
  }

  lemma DestroyKeeps(messages: bool, n: Native, i: nat)
    requires Valid(messages, n) && i in n.handles
    ensures Valid(messages, After(messages, n, Destroy(i)))
  {
    var r, t := Released(n, i), After(messages, n, Destroy(i));
    ReleaseKeepsOwners(n, i);
    NullGoes(r, i);
    assert r.handles - {i} == t.handles;
    assert Owned(r.(handles := r.handles - {i})) && Owned(t);
    if n.handles[i].Some? {
      RemoveKeepsEmpties(n, t, i);
    }
  }

  lemma RemoveKeepsEmpties(n: Native, t: Native, i: nat)
    requires i in n.handles && n.handles[i].Some? && t.handles == n.handles - {i}
    ensures NoneEmpty(t) <==> NoneEmpty(n)
  {
    assert forall k :: k in n.handles && k != i ==> k in t.handles && t.handles[k] == n.handles[k];
  }

  lemma EveryOperationKeeps(messages: bool, n: Native, op: Operation)
    requires Valid(messages, n) && Permitted(messages, n, op)
    ensures Valid(messages, After(messages, n, op))
  {
    match op
    case Construct(i, succeeds) =>
      AcquireKeepsOwners(n, i);
      FillKeepsEmpties(n, i);
    case ConstructNull(i) => NullComes(n, i);
    case MoveConstruct(i, from) => MoveConstructKeeps(messages, n, i, from);
    case MoveAssign(i, from) => MoveAssignKeeps(messages, n, i, from);
    case Swap(i, j) =>
      SwapKeepsOwners(n, i, j);
      SwapKeepsEmpties(n, i, j);
    case Close(i) => ReleaseKeepsOwners(n, i);
    case Rebuild(i, succeeds) => RebuildKeeps(n, i, succeeds);
    case Destroy(i) => DestroyKeeps(messages, n, i);
  }

  lemma {:induction false} ProgramsKeep(messages: bool, n: Native, ops: seq<Operation>)
    requires Valid(messages, n)
    ensures Valid(messages, AfterOps(messages, n, ops))
    decreases |ops|
  {
    if ops != [] {
      var before, op := AfterOps(messages, n, ops[..|ops| - 1]), ops[|ops| - 1];
      ProgramsKeep(messages, n, ops[..|ops| - 1]);
      if Permitted(messages, before, op) {
        EveryOperationKeeps(messages, before, op);
      }
    }
  }

  /** Only a rebuild that fails is counted as a failure. */
  lemma {:induction false} NoFailures(messages: bool, n: Native, ops: seq<Operation>)
    requires forall k :: 0 <= k < |ops| && ops[k].Rebuild? ==> ops[k].succeeds
    ensures AfterOps(messages, n, ops).failures == n.failures
    decreases |ops|
  {
    if ops != [] {
      NoFailures(messages, n, ops[..|ops| - 1]);
    }
  }

  /**
   In every program, once all objects are destroyed every handle has been released
   exactly once, and a closed message was closed again exactly when a rebuild had
   failed.
   */
  lemma {:induction false} ReleasedExactlyOnce(messages: bool, ops: seq<Operation>)
    ensures var n := AfterOps(messages, Native(map[], 0, [], 0, 0), ops);
            n.handles == map[] ==>
              && (forall h :: 0 <= h < n.acquired ==> multiset(n.released)[h] == 1)
              && |n.released| == n.acquired
              && (n.badCloses == 0 <==> n.failures == 0)
              && ((forall k :: 0 <= k < |ops| && ops[k].Rebuild? ==> ops[k].succeeds) ==> n.badCloses == 0)
  {
    var start, n := Native(map[], 0, [], 0, 0), AfterOps(messages, Native(map[], 0, [], 0, 0), ops);
    assert Valid(messages, start);
    ProgramsKeep(messages, start, ops);
    if forall k :: 0 <= k < |ops| && ops[k].Rebuild? ==> ops[k].succeeds {
      NoFailures(messages, start, ops);
    }
    if n.handles == map[] {
      forall h | 0 <= h < n.acquired
        ensures multiset(n.released)[h] == 1
      {
        assert h in n.released;
        OnceInDistinct(n.released, h);
      }
      AllNumbersBelow(n.released, n.acquired);
    }
  }

  lemma SomeElement(s: seq<nat>)
    ensures s == [] || exists h: nat :: h in s
  {
    if s != [] {
      assert s[0] in s;
    }
  }

  /** Distinct numbers that are exactly those below n are n numbers. */
  lemma {:induction false} AllNumbersBelow(s: seq<nat>, n: nat)
    requires forall a, b :: 0 <= a < b < |s| ==> s[a] != s[b]
    requires forall h: nat :: h in s <==> h < n
    ensures |s| == n
  {
    if n == 0 {
      SomeElement(s);
    } else {
      var last: nat := n - 1;
      assert last in s;
      var k :| 0 <= k < |s| && s[k] == last;
      var rest := s[..k] + s[k + 1..];
      assert s == s[..k] + [last] + s[k + 1..];
      assert last !in s[..k] && last !in s[k + 1..];
      forall h: nat
        ensures h in rest <==> h < last
      {
        assert h in rest <==> h in s && h != last;
      }
      AllNumbersBelow(rest, last);
    }
  }

  /** A message whose rebuild fails is closed once more by its destructor. */
  lemma FailedRebuildIsClosedAgain()
    ensures AfterOps(true, Native(map[], 0, [], 0, 0), [Construct(0, true), Rebuild(0, false), Destroy(0)])
         == Native(map[], 1, [0], 1, 1)
  {
    var start := Native(map[], 0, [], 0, 0);
    var ops := [Construct(0, true), Rebuild(0, false), Destroy(0)];
    assert ops[..2][..1] == [Construct(0, true)] && ops[..2][..1][..0] == [];
    assert AfterOps(true, start, ops[..2][..1]) == Native(map[0 := Some(0)], 1, [], 0, 0);
    assert AfterOps(true, start, ops[..2]) == Native(map[0 := None], 1, [0], 1, 0);
    var closed: map<nat, Option<nat>> := map[0 := None];
    assert closed - {0} == map[];
  }

  lemma {:induction false} OnceInDistinct(s: seq<nat>, h: nat)
    requires h in s && forall a, b :: 0 <= a < b < |s| ==> s[a] != s[b]
    ensures multiset(s)[h] == 1
  {
    var last := |s| - 1;
    assert s == s[..last] + [s[last]];
    if s[last] == h {
      assert h !in s[..last];
    } else {
      OnceInDistinct(s[..last], h);
    }
  }
}
