/** The per-session write queue. The strand runs posted handlers one at a time in the order they
    were posted, and every write that is started completes once; `send` may run on any thread. */
module WebSocketSessions {

  type Message = string

  datatype Session = Session(
    closed: bool,               // closed_
    writeQueue: seq<Message>,   // writeQueue_
    checked: seq<Message>,      // sends past the closed_ test that have not posted yet
    posted: seq<Message>,       // onSend handlers waiting on the strand
    writing: seq<Message>,      // writes started and not completed
    completed: seq<Message>,    // writes completed without error
    accepted: seq<Message>)     // every message ever posted, in order

  const OPENED := Session(false, [], [], [], [], [], [])

  /** One atomic step: the two halves of `send`, a handler on the strand, or a disconnect. */
  datatype Step = Check(message: Message) | Post(i: nat) | OnSend | OnWrite(ok: bool) | Disconnect

  function RemoveAt<T>(s: seq<T>, i: nat): seq<T>
    requires i < |s|
  {
    s[..i] + s[i + 1..]
  }

  function CheckSend(s: Session, message: Message): Session {
    if s.closed then s else s.(checked := s.checked + [message])
  }

  function PostSend(s: Session, i: nat): Session
    requires i < |s.checked|
  {
    s.(checked := RemoveAt(s.checked, i), posted := s.posted + [s.checked[i]],
       accepted := s.accepted + [s.checked[i]])
  }

  function RunOnSend(s: Session): Session
    requires s.posted != []
  {
    var rest := s.(posted := s.posted[1..]);
    if s.closed then rest
    else
      var queue := s.writeQueue + [s.posted[0]];
      if |queue| > 1 then rest.(writeQueue := queue)
      else rest.(writeQueue := queue, writing := s.writing + [queue[0]])
  }

  /** The completion handler of a started write. */
  function RunOnWrite(s: Session, ok: bool): Session
    requires s.writing != [] && (s.closed || s.writeQueue != [])
  {
    var done := s.(writing := s.writing[1..], completed := s.completed + if ok then [s.writing[0]] else []);
    if !ok then done.(closed := true)
    else if s.closed then done
    else
      var queue := s.writeQueue[1..];
      if queue == [] then done.(writeQueue := queue)
      else done.(writeQueue := queue, writing := done.writing + [queue[0]])
  }

  predicate Enabled(s: Session, step: Step) {
    match step
    case Post(i) => i < |s.checked|
    case OnSend => s.posted != []
    case OnWrite(_) => s.writing != [] && (s.closed || s.writeQueue != [])
    case _ => true
  }

  function Apply(s: Session, step: Step): Session
    requires Enabled(s, step)
  {
    match step
    case Check(message) => CheckSend(s, message)
    case Post(i) => PostSend(s, i)
    case OnSend => RunOnSend(s)
    case OnWrite(ok) => RunOnWrite(s, ok)
    case Disconnect => s.(closed := true)
  }

  function Play(s: Session, steps: seq<Step>): Session {
    if steps == [] then s
    else
      var before := Play(s, steps[..|steps| - 1]);
      if Enabled(before, steps[|steps| - 1]) then Apply(before, steps[|steps| - 1]) else before
  }

  /** At most one write is outstanding and it is the queue's front; while open, one is outstanding
      exactly when the queue is not empty, and nothing accepted is lost or reordered. */
  ghost predicate Inv(s: Session) {
    |s.writing| <= 1 &&
    (s.writing != [] ==> s.writeQueue != [] && s.writing[0] == s.writeQueue[0]) &&
    (!s.closed ==>
      (s.writing == [] <==> s.writeQueue == []) &&
      s.completed + s.writeQueue + s.posted == s.accepted) &&
    s.completed + s.writing <= s.accepted
  }

  lemma SendKeeps(s: Session)
    requires Inv(s) && s.posted != []
    ensures Inv(RunOnSend(s))
  {
    var t := RunOnSend(s);
    assert s.posted == [s.posted[0]] + s.posted[1..];
    if !s.closed {
      assert t.completed + t.writeQueue + t.posted == s.completed + s.writeQueue + s.posted;
      if s.writing == [] {
        assert t.completed + t.writing == s.completed + [s.posted[0]];
      }
    }
  }

  lemma WriteKeeps(s: Session, ok: bool)
    requires Inv(s) && s.writing != []
    ensures Inv(RunOnWrite(s, ok))
  {
    var t := RunOnWrite(s, ok);
    assert s.writing == [s.writing[0]];
    if ok {
      assert t.completed == s.completed + s.writing;
      if !s.closed {
        assert s.writeQueue == [s.writeQueue[0]] + s.writeQueue[1..];
        assert t.completed + t.writeQueue + t.posted == s.completed + s.writeQueue + s.posted;
        if t.writeQueue != [] {
          assert s.accepted == (s.completed + [s.writeQueue[0]] + [t.writeQueue[0]]) + (t.writeQueue[1..] + s.posted);
          assert t.completed + t.writing == s.completed + [s.writeQueue[0]] + [t.writeQueue[0]];
        }
      }
    } else {
      assert s.completed <= s.completed + s.writing <= s.accepted;
    }
  }

  lemma PostKeeps(s: Session, i: nat)
    requires Inv(s) && i < |s.checked|
    ensures Inv(PostSend(s, i))
  {
    var t := PostSend(s, i);
    assert !s.closed ==>
      t.completed + t.writeQueue + t.posted == (s.completed + s.writeQueue + s.posted) + [s.checked[i]];
    assert s.completed + s.writing <= s.accepted <= t.accepted;
  }

  /** Every interleaving of sends, strand handlers and disconnects keeps the protocol. */
  lemma {:induction false} AlwaysInv(steps: seq<Step>)
    ensures Inv(Play(OPENED, steps))
  {
    if steps != [] {
      var before, step := steps[..|steps| - 1], steps[|steps| - 1];
      AlwaysInv(before);
      var s := Play(OPENED, before);
      if Enabled(s, step) {
        match step
        case Check(_) =>
        case Post(i) => PostKeeps(s, i);
        case OnSend => SendKeeps(s);
        case OnWrite(ok) => WriteKeeps(s, ok);
        case Disconnect =>
      }
    }
  }

  /** The messages of the sends that found the session open. */
  function SentWhileOpen(steps: seq<Step>): seq<Message> {
    if steps == [] then []
    else
      var before, step := steps[..|steps| - 1], steps[|steps| - 1];
      SentWhileOpen(before) + if step.Check? && !Play(OPENED, before).closed then [step.message] else []
  }

  lemma RemoveAtContents<T>(s: seq<T>, i: nat)
    requires i < |s|
    ensures multiset(RemoveAt(s, i)) + multiset{s[i]} == multiset(s)
  {
    assert s == s[..i] + [s[i]] + s[i + 1..];
  }

  lemma PostContents(s: Session, i: nat)
    requires i < |s.checked|
    ensures var t := PostSend(s, i);
      multiset(t.accepted) + multiset(t.checked) == multiset(s.accepted) + multiset(s.checked)
  {
    hide RemoveAt;
    RemoveAtContents(s.checked, i);
    assert multiset(s.accepted + [s.checked[i]]) == multiset(s.accepted) + multiset{s.checked[i]};
  }

  lemma CheckContents(s: Session, message: Message)
    ensures var t := CheckSend(s, message);
      t.accepted == s.accepted &&
      multiset(t.checked) == multiset(s.checked) + if s.closed then multiset{} else multiset{message}
  {
  }

  /** Nothing is made up, lost or doubled on the way to the strand: what has been accepted and what is
      still to be posted are together the messages sent while the session was open. */
  lemma {:induction false} AcceptedAreSent(steps: seq<Step>)
    ensures var s := Play(OPENED, steps);
      multiset(s.accepted) + multiset(s.checked) == multiset(SentWhileOpen(steps))
  {
    hide PostSend, CheckSend;
    if steps != [] {
      var before, step := steps[..|steps| - 1], steps[|steps| - 1];
      AcceptedAreSent(before);
      var s := Play(OPENED, before);
      if Enabled(s, step) {
        match step
        case Check(message) => CheckContents(s, message);
        case Post(i) => PostContents(s, i);
        case _ =>
      }
    }
  }

  /** A completion handler never erases from an empty queue: it is enabled whenever a write is out. */
  lemma CompletionsEnabled(steps: seq<Step>, ok: bool)
    ensures var s := Play(OPENED, steps);
      Enabled(s, OnWrite(ok)) <==> s.writing != []
  {
    AlwaysInv(steps);
  }

  /** An open session whose strand and queue are drained has delivered every accepted message, in
      the order of acceptance. */
  lemma DrainedMeansDelivered(steps: seq<Step>)
    ensures var s := Play(OPENED, steps);
      !s.closed && s.posted == [] && s.writing == [] ==> s.completed == s.accepted
  {
    AlwaysInv(steps);
  }

  lemma {:induction false} PlayConcat(s: Session, a: seq<Step>, b: seq<Step>)
    ensures Play(s, a + b) == Play(Play(s, a), b)
  {
    if b == [] {
      assert a + b == a;
    } else {
      assert (a + b)[..|a + b| - 1] == a + b[..|b| - 1];
      PlayConcat(s, a, b[..|b| - 1]);
    }
  }

  lemma {:induction false} ClosedStays(s: Session, steps: seq<Step>)
    requires s.closed && |s.writing| <= 1
    ensures var t := Play(s, steps);
      t.closed && s.completed <= t.completed && t.completed + t.writing <= s.completed + s.writing
  {
    if steps != [] {
      var before, step := steps[..|steps| - 1], steps[|steps| - 1];
      ClosedStays(s, before);
      var u := Play(s, before);
      if Enabled(u, step) && step.OnWrite? {
        var t := Apply(u, step);
        assert u.completed + u.writing == s.completed + s.writing;
        assert u.writing == [u.writing[0]];
      }
    }
  }

  /** However a run goes on after it has closed the session, no write is started: what was completed
      stays, and at most the one write in flight is still completed. */
  lemma NothingAfterClose(before: seq<Step>, after: seq<Step>)
    requires Play(OPENED, before).closed
    ensures var s, t := Play(OPENED, before), Play(OPENED, before + after);
      t.closed && s.completed <= t.completed && t.completed + t.writing <= s.completed + s.writing &&
      |t.completed| <= |s.completed| + 1
  {
    AlwaysInv(before);
    PlayConcat(OPENED, before, after);
    ClosedStays(Play(OPENED, before), after);
  }

  /** Whatever happens, what a client has received is a prefix of what was accepted for it. */
  lemma ReceivedIsPrefix(steps: seq<Step>)
    ensures var s := Play(OPENED, steps); s.completed <= s.accepted && |s.writing| <= 1
  {
    AlwaysInv(steps);
    var s := Play(OPENED, steps);
    assert s.completed <= s.completed + s.writing;
  }

  /** The session object; what the strand and the socket hold is kept as ghost state. */
  class WebSocketSession {
    var closed: bool
    var writeQueue: seq<Message>
    var registered: bool   // among the clients that broadcasts go to
    var socketOpen: bool
    ghost var checked: seq<Message>
    ghost var posted: seq<Message>
    ghost var writing: seq<Message>
    ghost var completed: seq<Message>
    ghost var accepted: seq<Message>

    ghost function State(): Session
      reads this
    {
      Session(closed, writeQueue, checked, posted, writing, completed, accepted)
    }

    ghost predicate Valid()
      reads this
    {
      Inv(State()) && registered == socketOpen == !closed
    }

    /** An accepted connection. */
    constructor ()
      ensures Valid() && State() == OPENED
    {
      closed, writeQueue, registered, socketOpen := false, [], true, true;
      checked, posted, writing, completed, accepted := [], [], [], [], [];
    }

    /** `send` without interruption between its test and its post. */
    method Send(message: Message)
      requires Valid()
      modifies this
      ensures Valid()
      ensures State() ==
        if old(closed) then old(State())
        else PostSend(CheckSend(old(State()), message), |old(checked)|)
      ensures old(closed) ==> State() == old(State())
      ensures !old(closed) ==>
        posted == old(posted) + [message] && accepted == old(accepted) + [message] && !closed &&
        checked == old(checked) && writeQueue == old(writeQueue) && writing == old(writing) &&
        completed == old(completed)
    {
      if closed { return; }
      PostKeeps(CheckSend(State(), message), |checked|);
      assert RemoveAt(checked + [message], |checked|) == checked;
      posted := posted + [message];
      accepted := accepted + [message];
    }

    /** The posted handler of the oldest message on the strand. */
    method OnSend(message: Message)
      requires Valid() && posted != [] && message == posted[0]
      modifies this
      ensures Valid() && State() == RunOnSend(old(State()))
      ensures posted == old(posted)[1..]
      ensures old(closed) ==> writeQueue == old(writeQueue) && writing == old(writing)
      ensures !old(closed) ==>
        writeQueue == old(writeQueue) + [message] &&
        writing == if old(writeQueue) == [] then [message] else old(writing)
      ensures closed == old(closed) && completed == old(completed) && accepted == old(accepted)
    {
      SendKeeps(State());
      posted := posted[1..];
      if closed { return; }
      writeQueue := writeQueue + [message];
      if |writeQueue| > 1 { return; }
      writing := writing + [writeQueue[0]];
    }

    /** The completion handler of the outstanding write; `ok` is the absence of an error code. */
    method OnWrite(ok: bool)
      requires Valid() && writing != []
      modifies this
      ensures Valid() && State() == RunOnWrite(old(State()), ok)
      ensures completed == if ok then old(completed) + [old(writeQueue)[0]] else old(completed)
      ensures closed == (old(closed) || !ok)
      ensures closed ==> writing == [] && writeQueue == old(writeQueue)
      ensures !closed ==>
        writeQueue == old(writeQueue)[1..] && writing == if writeQueue == [] then [] else [writeQueue[0]]
      ensures posted == old(posted) && accepted == old(accepted)
    {
      WriteKeeps(State(), ok);
      completed := completed + if ok then [writing[0]] else [];
      writing := writing[1..];
      if !ok {
        Disconnect();
        return;
      }
      if closed { return; }
      writeQueue := writeQueue[1..];
      if writeQueue != [] {
        writing := writing + [writeQueue[0]];
      }
    }

    /** The first call closes, leaves the client list and closes the socket; later calls change nothing. */
    method Disconnect()
      modifies this
      ensures State() == old(State()).(closed := true)
      ensures registered == (old(registered) && old(closed)) && socketOpen == (old(socketOpen) && old(closed))
    {
      if !closed {
        closed := true;
        registered := false;
        socketOpen := false;
      }
    }
  }
}
