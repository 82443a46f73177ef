/**
 The publisher's context and socket over a whole life: what is asked of the
 library, and in which order.
 */
module PublisherLife {
  datatype Event = ContextNew | SocketNew | SocketClose | ContextShutdown | ContextTerm

  /** What the library holds for one publisher; terminating a context with an open socket would block for ever. */
  datatype Library = Library(context: bool, socket: bool) | Stuck

  function After(l: Library, e: Event): Library {
    if l.Stuck? then Stuck
    else match e
      case ContextNew => if l.context then Stuck else Library(true, l.socket)
      case SocketNew => if l.context && !l.socket then Library(true, true) else Stuck
      case SocketClose => if l.socket then Library(l.context, false) else Stuck
      case ContextShutdown => if l.context then l else Stuck
      case ContextTerm => if l.context && !l.socket then Library(false, false) else Stuck
  }

  function AfterAll(log: seq<Event>): Library {
    if log == [] then Library(false, false) else After(AfterAll(log[..|log| - 1]), log[|log| - 1])
  }

  /** The order matters: a context that is terminated before its socket is closed blocks for ever. */
  lemma {:induction false} ContextFirstIsStuck(rest: seq<Event>)
    ensures AfterAll([ContextNew, SocketNew, ContextTerm] + rest) == Stuck
    decreases |rest|
  {
    var begun := [ContextNew, SocketNew, ContextTerm];
    if rest == [] {
      assert begun + rest == begun && begun[..2][..1] == [ContextNew] && [ContextNew][..0] == [];
      assert AfterAll(begun[..2][..1]) == Library(true, false);
      assert AfterAll(begun[..2]) == Library(true, true);
    } else {
      assert (begun + rest)[..|begun + rest| - 1] == begun + rest[..|rest| - 1];
      ContextFirstIsStuck(rest[..|rest| - 1]);
    }
  }

  class ZmqPublisher {
    var context: bool  // the context wrapper holds a handle
    var socket: bool   // the socket wrapper holds a handle
    var log: seq<Event>

    ghost predicate Valid()
      reads this
    {
      AfterAll(log) == Library(context, socket) && (socket ==> context)
    }

    /** Before the members are initialized. */
    constructor ()
      ensures Valid() && !context && !socket
    {
      context, socket, log := false, false, [];
    }

    method Record(e: Event, context': bool, socket': bool)
      requires Valid() && After(AfterAll(log), e) == Library(context', socket') && (socket' ==> context')
      modifies this
      ensures Valid() && context == context' && socket == socket' && log == old(log) + [e]
    {
      assert (log + [e])[..|log|] == log;
      log, context, socket := log + [e], context', socket';
    }

    method CloseSocket()
      requires Valid()
      modifies this
      ensures Valid() && !socket && context == old(context)
      ensures log == old(log) + (if old(socket) then [SocketClose] else [])
    {
      if socket {
        Record(SocketClose, context, false);
      }
    }

    method ShutdownContext()
      requires Valid() && !socket
      modifies this
      ensures Valid() && !socket && context == old(context)
      ensures log == old(log) + (if old(context) then [ContextShutdown] else [])
    {
      if context {
        Record(ContextShutdown, true, false);
      }
    }

    method CloseContext()
      requires Valid() && !socket
      modifies this
      ensures Valid() && !socket && !context
      ensures log == old(log) + (if old(context) then [ContextTerm] else [])
    {
      if context {
        Record(ContextTerm, false, false);
      }
    }

    /** Members are destroyed in reverse order of declaration: the socket, then the context. */
    method DestroyMembers()
      requires Valid()
      modifies this
      ensures Valid() && !socket && !context
      ensures log == old(log) + (if old(socket) then [SocketClose] else [])
                     + (if old(context) then [ContextTerm] else [])
    {
      CloseSocket();
      CloseContext();
    }

    /**
     A whole life: members are constructed in order, a failure on the way destroys
     what was constructed, and otherwise the destructor runs.  In every case
     nothing stays open and the library is never asked to do the impossible.
     */
    method Live(contextOpens: bool, socketOpens: bool, binds: bool) returns (published: bool)
      requires Valid() && log == [] && !context && !socket
      modifies this
      ensures published <==> contextOpens && socketOpens && binds
      ensures !contextOpens ==> log == []
      ensures contextOpens && !socketOpens ==> log == [ContextNew, ContextTerm]
      ensures contextOpens && socketOpens && !binds ==> log == [ContextNew, SocketNew, SocketClose, ContextTerm]
      ensures published ==> log == [ContextNew, SocketNew, SocketClose, ContextShutdown, ContextTerm]
      ensures AfterAll(log) == Library(false, false)
    {
      published := false;
      if !contextOpens {
        return;
      }
      Record(ContextNew, true, false);
      if !socketOpens {
        CloseContext();
        return;
      }
      Record(SocketNew, true, true);
      if !binds {
        DestroyMembers();
        return;
      }
      published := true;
      CloseSocket();
      ShutdownContext();
      CloseContext();
      DestroyMembers();
    }
  }
}
