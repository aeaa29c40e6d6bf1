/** MessageManager: a process-wide message bus.  Objects register to receive messages;
    a receiving method is one declared with the MessageResponse annotation and exactly one
    parameter, and it receives the messages whose class is that parameter's class.  A sent
    message travels as a local broadcast to the manager's receiver, which queues it on the
    UI or the background handler; the handler then dispatches it to at most responseCount
    registered objects, in registration order.

    The Java class keeps this state in static fields; here one MessageManager object holds
    it.  Reflection becomes data: `methodsOf` gives an object's declared methods as records,
    and a delivery is recorded instead of invoking the method.  The broadcast manager and
    the two handler threads are the sequences `broadcasts`, `uiQueue` and `backgroundQueue`:
    what the environment later hands to OnReceive and to ExecuteMessage.  The model only
    appends to them: the environment takes the head of `broadcasts` for OnReceive and the
    head of a handler queue for ExecuteMessage, and that removal is not modelled. */
module Messaging {
  import opened Wrappers
  import opened JavaLang

  /** A declared method of a registered object: its name, the class names of its
      parameters, and whether it carries the MessageResponse annotation. */
  datatype Method = Method(name: string, paramTypes: seq<string>, annotated: bool)

  /** MessageReciver: a receiving method and the class name of its one parameter. */
  datatype Receiver = Receiver(methodName: string, paramType: string)

  /** One object's receivers, keyed by the class name they accept. */
  type Table = map<string, Receiver>

  /** A message object; dispatch looks only at the exact name of its class. */
  datatype Msg = Msg(className: string)

  /** MessageWrapper, the serialisable box a message travels in; the message may be null. */
  datatype Wrapper = Wrapper(message: Option<Msg>)

  /** The broadcast intent: the wrapped message and the two extras. */
  datatype Intent = Intent(wrapper: Option<Wrapper>, responseCount: int, runOnUiThread: bool)

  /** An android.os.Message on a handler's queue: `what` is the response count and `obj`
      the message. */
  datatype Queued = Queued(what: int, obj: Option<Msg>)

  /** One invocation of a receiving method on a registered object. */
  datatype Delivery<O> = Delivery(instance: O, methodName: string, message: Msg)

  /** The exceptions the manager throws. */
  datatype Failure =
    | AlreadyInitialised
    | NotInitialised
    | AlreadyRegistered
    | NotRegistered
      /** An annotated method without exactly one parameter (IllegalArgumentException). */
    | BadParameterCount(methodName: string)
      /** A second annotated method for a class name that already has one. */
    | DuplicateHandler(methodName: string, previous: string)
      /** A null message: the receiver's debug log and dispatch both fail on its class lookup. */
    | NullMessage

  // ---------------------------------------------------------------------------------
  // Handler validation

  /** One step of register's scan: an unannotated method is skipped; an annotated one must
      have one parameter whose class name has no receiver yet. */
  function AddHandler(table: Table, m: Method): Result<Table, Failure> {
    if !m.annotated then Ok(table)
    else if |m.paramTypes| != 1 then Err(BadParameterCount(m.name))
    else if m.paramTypes[0] in table then Err(DuplicateHandler(m.name, table[m.paramTypes[0]].methodName))
    else Ok(table[m.paramTypes[0] := Receiver(m.name, m.paramTypes[0])])
  }

  /** The receivers register builds from the declared methods, in declaration order, or
      the first failure. */
  function HandlerTable(ms: seq<Method>): Result<Table, Failure> {
    if ms == [] then Ok(map[])
    else
      match HandlerTable(ms[..|ms| - 1])
      case Err(e) => Err(e)
      case Ok(t) => AddHandler(t, ms[|ms| - 1])
  }

  /** `m` receives messages of class `p`. */
  predicate Handles(m: Method, p: string) {
    m.annotated && m.paramTypes == [p]
  }

  /** The declaration rules: every annotated method has one parameter, and no two
      annotated methods have the same parameter class. */
  predicate WellDeclared(ms: seq<Method>) {
    && (forall i :: 0 <= i < |ms| && ms[i].annotated ==> |ms[i].paramTypes| == 1)
    && (forall i, j :: 0 <= i < j < |ms| && ms[i].annotated && ms[j].annotated ==> ms[i].paramTypes != ms[j].paramTypes)
  }

  lemma PrefixOfSnoc(ms: seq<Method>)
    requires ms != []
    ensures HandlerTable(ms) == (match HandlerTable(ms[..|ms| - 1])
                                 case Err(e) => Err(e)
                                 case Ok(t) => AddHandler(t, ms[|ms| - 1]))
  {
  }

  /** The scan succeeds exactly when the methods obey the declaration rules. */
  lemma {:induction false} HandlerTableOk(ms: seq<Method>)
    ensures HandlerTable(ms).Ok? <==> WellDeclared(ms)
  {
    if ms != [] {
      var n := |ms| - 1;
      var init, m := ms[..n], ms[n];
      HandlerTableOk(init);
      HandlerTableContents(init);
      assert forall i :: 0 <= i < n ==> init[i] == ms[i];
      if HandlerTable(init).Ok? {
        var t := HandlerTable(init).value;
        if m.annotated && |m.paramTypes| == 1 {
          var p := m.paramTypes[0];
          if p in t {
            var i :| 0 <= i < n && Handles(init[i], p);
            assert ms[i].paramTypes == ms[n].paramTypes;
          } else {
            forall i | 0 <= i < n && ms[i].annotated
              ensures ms[i].paramTypes != ms[n].paramTypes
            {
              assert Handles(ms[i], ms[i].paramTypes[0]);
            }
          }
        }
      } else {
        assert !WellDeclared(init);
      }
    }
  }

  /** A successful scan holds one receiver per annotated method, keyed by its parameter
      class, and nothing else. */
  lemma {:induction false} HandlerTableContents(ms: seq<Method>)
    ensures HandlerTable(ms).Ok? ==>
      && (forall i, p :: 0 <= i < |ms| && Handles(ms[i], p) ==> p in HandlerTable(ms).value && HandlerTable(ms).value[p] == Receiver(ms[i].name, p))
      && (forall p :: p in HandlerTable(ms).value ==> exists i :: 0 <= i < |ms| && Handles(ms[i], p))
  {
    if ms != [] && HandlerTable(ms).Ok? {
      var n := |ms| - 1;
      var init, m := ms[..n], ms[n];
      HandlerTableContents(init);
      assert forall i :: 0 <= i < n ==> init[i] == ms[i];
      var t := HandlerTable(init).value;
      var u := HandlerTable(ms).value;
      forall q | q in u
        ensures exists i :: 0 <= i < |ms| && Handles(ms[i], q)
      {
        if Handles(m, q) {
          assert Handles(ms[n], q);
        } else {
          var i :| 0 <= i < n && Handles(init[i], q);
          assert Handles(ms[i], q);
        }
      }
    }
  }

  /** A failed scan names a culprit: an annotated method with a wrong parameter count, or
      a later annotated method sharing its parameter class with an earlier one. */
  lemma {:induction false} HandlerTableFailure(ms: seq<Method>)
    ensures HandlerTable(ms).Err? ==>
      match HandlerTable(ms).error
      case BadParameterCount(n) =>
        exists i :: 0 <= i < |ms| && ms[i].annotated && |ms[i].paramTypes| != 1 && ms[i].name == n
      case DuplicateHandler(n, prev) =>
        exists i, j, p :: 0 <= i < j < |ms| && Handles(ms[i], p) && Handles(ms[j], p)
                          && ms[i].name == prev && ms[j].name == n
      case _ => false
  {
    if ms != [] {
      var n := |ms| - 1;
      var init, m := ms[..n], ms[n];
      HandlerTableFailure(init);
      if HandlerTable(init).Ok? {
        HandlerTableContents(init);
        var t := HandlerTable(init).value;
        if m.annotated && |m.paramTypes| == 1 && m.paramTypes[0] in t {
          var p := m.paramTypes[0];
          var i :| 0 <= i < n && Handles(init[i], p);
          assert t[p] == Receiver(init[i].name, p);
          assert Handles(ms[i], p) && Handles(ms[n], p);
        }
      } else {
        match HandlerTable(init).error
        case BadParameterCount(_) =>
          var i :| 0 <= i < n && init[i].annotated && |init[i].paramTypes| != 1 && init[i].name == HandlerTable(init).error.methodName;
          assert ms[i] == init[i];
        case DuplicateHandler(_, _) =>
          var e := HandlerTable(init).error;
          var i, j, p :| 0 <= i < j < n && Handles(init[i], p) && Handles(init[j], p)
                        && init[i].name == e.previous && init[j].name == e.methodName;
          assert ms[i] == init[i] && ms[j] == init[j];
      }
    }
  }

  /** Once the scan of a prefix fails, the scan of the whole fails the same way. */
  lemma {:induction false} HandlerTableStopsAtFailure(ms: seq<Method>, k: nat)
    requires k <= |ms| && HandlerTable(ms[..k]).Err?
    ensures HandlerTable(ms) == HandlerTable(ms[..k])
    decreases |ms| - k
  {
    if k < |ms| {
      assert ms[..k + 1][..k] == ms[..k];
      HandlerTableStopsAtFailure(ms, k + 1);
    } else {
      assert ms[..k] == ms;
    }
  }

  // ---------------------------------------------------------------------------------
  // Dispatch

  /** The response count of a queued message: -1 means no limit. */
  function Budget(what: int): (b: int)
    ensures what == -1 ==> b == INT_MAX
    ensures what != -1 ==> b == what
  {
    if what == -1 then INT_MAX else what
  }

  /** The object's receiver for the message, if it has a receiver table and one for
      exactly the message's class. */
  function ReceiverFor<O(==)>(handlers: map<O, Table>, o: O, message: Msg): Option<Receiver> {
    if o in handlers && message.className in handlers[o] then Some(handlers[o][message.className]) else None
  }

  /** Every delivery the registered objects accept, in registration order. */
  function Matching<O(==)>(instances: seq<O>, handlers: map<O, Table>, message: Msg): seq<Delivery<O>> {
    if instances == [] then []
    else
      var o := instances[0];
      var rest := Matching(instances[1..], handlers, message);
      if ReceiverFor(handlers, o, message).Some? then [Delivery(o, ReceiverFor(handlers, o, message).value.methodName, message)] + rest
      else rest
  }

  /** executeMessage's walk: visit the objects in registration order and deliver to each
      one that accepts the message, while the budget is positive; a delivery spends one. */
  function Dispatch<O(==)>(instances: seq<O>, handlers: map<O, Table>, message: Msg, budget: int): seq<Delivery<O>> {
    if instances == [] || budget <= 0 then []
    else
      var o := instances[0];
      if ReceiverFor(handlers, o, message).Some? then
        [Delivery(o, ReceiverFor(handlers, o, message).value.methodName, message)] + Dispatch(instances[1..], handlers, message, budget - 1)
      else Dispatch(instances[1..], handlers, message, budget)
  }

  function Min(a: int, b: int): int {
    if a <= b then a else b
  }

  /** Dispatch delivers the first `budget` of the matching deliveries, or all of them when
      there are fewer; a budget that is not positive delivers nothing. */
  lemma {:induction false} DispatchIsPrefix<O>(instances: seq<O>, handlers: map<O, Table>, message: Msg, budget: int)
    ensures budget <= 0 ==> Dispatch(instances, handlers, message, budget) == []
    ensures budget >= 0 ==>
      var all := Matching(instances, handlers, message);
      Dispatch(instances, handlers, message, budget) == all[..Min(budget, |all|)]
    decreases |instances|
  {
    if instances != [] && budget > 0 {
      var o := instances[0];
      if ReceiverFor(handlers, o, message).Some? {
        DispatchIsPrefix(instances[1..], handlers, message, budget - 1);
        var d := Delivery(o, ReceiverFor(handlers, o, message).value.methodName, message);
        var rest := Matching(instances[1..], handlers, message);
        assert ([d] + rest)[..Min(budget, |rest| + 1)] == [d] + rest[..Min(budget - 1, |rest|)];
      } else {
        DispatchIsPrefix(instances[1..], handlers, message, budget);
      }
    }
  }

  /** A matching delivery goes to a registered object, through its receiver for exactly
      the message's class; and every registered object with such a receiver gets one. */
  lemma {:induction false} MatchingExact<O>(instances: seq<O>, handlers: map<O, Table>, message: Msg)
    ensures forall d :: d in Matching(instances, handlers, message) ==>
      && d.instance in instances && d.message == message
      && d.instance in handlers && message.className in handlers[d.instance]
      && d.methodName == handlers[d.instance][message.className].methodName
    ensures forall i :: 0 <= i < |instances| && ReceiverFor(handlers, instances[i], message).Some? ==>
      Delivery(instances[i], ReceiverFor(handlers, instances[i], message).value.methodName, message) in Matching(instances, handlers, message)
    decreases |instances|
  {
    if instances != [] {
      MatchingExact(instances[1..], handlers, message);
      assert forall i :: 0 < i < |instances| ==> instances[i] == instances[1..][i - 1];
    }
  }

  /** The deliveries for a list of objects are those for a first part followed by those
      for the rest: an earlier-registered object is always served first. */
  lemma {:induction false} MatchingSplits<O>(a: seq<O>, b: seq<O>, handlers: map<O, Table>, message: Msg)
    ensures Matching(a + b, handlers, message) == Matching(a, handlers, message) + Matching(b, handlers, message)
    decreases |a|
  {
    if a == [] {
      assert a + b == b;
    } else {
      assert (a + b)[1..] == a[1..] + b;
      MatchingSplits(a[1..], b, handlers, message);
    }
  }

  /** Each object contributes at most one delivery. */
  lemma {:induction false} MatchingLength<O>(instances: seq<O>, handlers: map<O, Table>, message: Msg)
    ensures |Matching(instances, handlers, message)| <= |instances|
    decreases |instances|
  {
    if instances != [] {
      MatchingLength(instances[1..], handlers, message);
    }
  }

  /** A response count of -1 reaches every accepting object (a Java list has at most
      INT_MAX elements); a count of 0 or any other negative count reaches none. */
  lemma Unlimited<O>(instances: seq<O>, handlers: map<O, Table>, message: Msg)
    requires |instances| <= INT_MAX
    ensures Dispatch(instances, handlers, message, Budget(-1)) == Matching(instances, handlers, message)
    ensures forall what :: what <= 0 && what != -1 ==> Dispatch(instances, handlers, message, Budget(what)) == []
  {
    MatchingLength(instances, handlers, message);
    DispatchIsPrefix(instances, handlers, message, INT_MAX);
    var all := Matching(instances, handlers, message);
    assert all[..|all|] == all;
    forall what | what <= 0 && what != -1
      ensures Dispatch(instances, handlers, message, Budget(what)) == []
    {
      DispatchIsPrefix(instances, handlers, message, what);
    }
  }

  /** register's loop over the declared methods: an annotated method must have exactly
      one parameter and a parameter class not seen before; the first violation is thrown. */
  method ScanHandlers(methods: seq<Method>) returns (r: Result<Table, Failure>)
    ensures r == HandlerTable(methods)
  {
    var table: Table := map[];
    for i := 0 to |methods|
      invariant HandlerTable(methods[..i]) == Ok(table)
    {
      var m := methods[i];
      assert methods[..i + 1][..i] == methods[..i];
      PrefixOfSnoc(methods[..i + 1]);
      if m.annotated {
        if |m.paramTypes| != 1 {
          HandlerTableStopsAtFailure(methods, i + 1);
          return Err(BadParameterCount(m.name));
        }
        var p := m.paramTypes[0];
        if p in table {
          HandlerTableStopsAtFailure(methods, i + 1);
          return Err(DuplicateHandler(m.name, table[p].methodName));
        }
        table := table[p := Receiver(m.name, p)];
      }
    }
    assert methods[..|methods|] == methods;
    r := Ok(table);
  }

  // ---------------------------------------------------------------------------------
  // The manager

  ghost predicate Unique<O>(s: seq<O>) {
    forall i, j :: 0 <= i < j < |s| ==> s[i] != s[j]
  }

  lemma AppendUnique<O>(s: seq<O>, x: O)
    requires Unique(s) && x !in s
    ensures Unique(s + [x])
  {
    forall i, j | 0 <= i < j < |s + [x]| ensures (s + [x])[i] != (s + [x])[j] {
      if j == |s| {
        assert (s + [x])[i] == s[i];
      }
    }
  }

  class MessageManager<O(==)> {
    /** sCanInit: true before init and after close. */
    var canInit: bool
    /** sMessageReciverInstances, in registration order. */
    var instances: seq<O>
    /** sMessageReciverInstancesMethods. */
    var handlers: map<O, Table>
    /** Intents sent and not yet received by the manager's broadcast receiver. */
    var broadcasts: seq<Intent>
    /** The pending messages of the UI handler and of the background handler. */
    var uiQueue: seq<Queued>
    var backgroundQueue: seq<Queued>
    /** getClass().getDeclaredMethods() of each object. */
    const methodsOf: O -> seq<Method>

    /** register never adds an object twice, and only registered objects have receivers. */
    ghost predicate Valid()
      reads this
    {
      Unique(instances) && forall o :: o in handlers ==> o in instances
    }

    /** The static state before init: not initialised, nothing registered. */
    constructor (methodsOf: O -> seq<Method>)
      ensures Valid()
      ensures canInit && instances == [] && handlers == map[]
      ensures broadcasts == [] && uiQueue == [] && backgroundQueue == []
      ensures this.methodsOf == methodsOf
    {
      canInit := true;
      instances := [];
      handlers := map[];
      broadcasts := [];
      uiQueue := [];
      backgroundQueue := [];
      this.methodsOf := methodsOf;
    }

    /** init: a second init fails.  Otherwise it starts a fresh background thread, whose
        queue is empty, and empty registries.  The new UI handler posts to the main looper
        like the old one, so UI messages still pending there are kept. */
    method Init() returns (r: Outcome<Failure>)
      requires Valid()
      modifies this
      ensures Valid()
      ensures broadcasts == old(broadcasts) && uiQueue == old(uiQueue)
      ensures !canInit
      ensures !old(canInit) ==>
        && r == Fail(AlreadyInitialised)
        && instances == old(instances) && handlers == old(handlers)
        && backgroundQueue == old(backgroundQueue)
      ensures old(canInit) ==>
        && r == Pass
        && instances == [] && handlers == map[] && backgroundQueue == []
    {
      if !canInit {
        return Fail(AlreadyInitialised);
      }
      canInit := false;
      backgroundQueue := [];
      handlers := map[];
      instances := [];
      r := Pass;
    }

    /** close: fails unless initialised; otherwise marks the manager uninitialised and
        stops the background thread, whose pending messages are dropped.  The registries
        are kept, but every later operation but init fails. */
    method Close() returns (r: Outcome<Failure>)
      requires Valid()
      modifies this
      ensures Valid()
      ensures canInit
      ensures instances == old(instances) && handlers == old(handlers)
      ensures broadcasts == old(broadcasts) && uiQueue == old(uiQueue)
      ensures old(canInit) ==> r == Fail(NotInitialised) && backgroundQueue == old(backgroundQueue)
      ensures !old(canInit) ==> r == Pass && backgroundQueue == []
    {
      if canInit {
        return Fail(NotInitialised);
      }
      canInit := true;
      backgroundQueue := [];
      r := Pass;
    }

    /** register: fails unless initialised, or if the object is already registered.
        Otherwise the object is appended to the registry first, and then its declared
        methods are scanned; a scan failure leaves the object registered without
        receivers, and a successful scan records its receiver table. */
    method Register(o: O) returns (r: Outcome<Failure>)
      requires Valid()
      modifies this
      ensures Valid()
      ensures canInit == old(canInit) && broadcasts == old(broadcasts)
      ensures uiQueue == old(uiQueue) && backgroundQueue == old(backgroundQueue)
      ensures old(canInit) ==> r == Fail(NotInitialised) && instances == old(instances) && handlers == old(handlers)
      ensures !old(canInit) && o in old(instances) ==>
        r == Fail(AlreadyRegistered) && instances == old(instances) && handlers == old(handlers)
      ensures !old(canInit) && o !in old(instances) ==>
        && instances == old(instances) + [o]
        && (HandlerTable(methodsOf(o)).Ok? ==> r == Pass && handlers == old(handlers)[o := HandlerTable(methodsOf(o)).value])
        && (HandlerTable(methodsOf(o)).Err? ==> r == Fail(HandlerTable(methodsOf(o)).error) && handlers == old(handlers))
    {
      if canInit {
        return Fail(NotInitialised);
      }
      if o in instances {
        return Fail(AlreadyRegistered);
      }
      AppendUnique(instances, o);
      instances := instances + [o];
      var scanned := ScanHandlers(methodsOf(o));
      match scanned
      case Err(e) =>
        r := Fail(e);
      case Ok(table) =>
        handlers := handlers[o := table];
        r := Pass;
    }

    /** unregister: fails unless initialised, or if the object is not registered;
        otherwise removes it from the registry and drops its receivers. */
    method Unregister(o: O) returns (r: Outcome<Failure>)
      requires Valid()
      modifies this
      ensures Valid()
      ensures canInit == old(canInit) && broadcasts == old(broadcasts)
      ensures uiQueue == old(uiQueue) && backgroundQueue == old(backgroundQueue)
      ensures old(canInit) ==> r == Fail(NotInitialised) && instances == old(instances) && handlers == old(handlers)
      ensures !old(canInit) && o !in old(instances) ==>
        r == Fail(NotRegistered) && instances == old(instances) && handlers == old(handlers)
      ensures !old(canInit) && o in old(instances) ==>
        && r == Pass
        && instances == ListRemove(old(instances), o) && handlers == old(handlers) - {o}
        && (forall x :: x in instances <==> x in old(instances) && x != o)
    {
      if canInit {
        return Fail(NotInitialised);
      }
      if o !in instances {
        return Fail(NotRegistered);
      }
      ListRemoveUnique(instances, o);
      instances := ListRemove(instances, o);
      handlers := handlers - {o};
      r := Pass;
    }

    /** sendMessage: fails unless initialised; otherwise broadcasts the wrapped message
        with its response count and thread choice. */
    method SendMessage(message: Option<Msg>, responseCount: int, runOnUiThread: bool) returns (r: Outcome<Failure>)
      requires INT_MIN <= responseCount <= INT_MAX
      requires Valid()
      modifies this
      ensures Valid()
      ensures canInit == old(canInit) && instances == old(instances) && handlers == old(handlers)
      ensures uiQueue == old(uiQueue) && backgroundQueue == old(backgroundQueue)
      ensures old(canInit) ==> r == Fail(NotInitialised) && broadcasts == old(broadcasts)
      ensures !old(canInit) ==>
        && r == Pass
        && broadcasts == old(broadcasts) + [Intent(Some(Wrapper(message)), responseCount, runOnUiThread)]
    {
      if canInit {
        return Fail(NotInitialised);
      }
      broadcasts := broadcasts + [Intent(Some(Wrapper(message)), responseCount, runOnUiThread)];
      r := Pass;
    }

    /** The broadcast receiver: fails unless initialised.  An intent with a response count
        of 0, or without a wrapped message, is dropped.  The debug log of any other intent
        asks the message for its class, which fails on a null message before anything is
        queued; a non-null message is queued on the UI or the background handler, as the
        intent asks. */
    method OnReceive(intent: Intent) returns (r: Outcome<Failure>)
      requires Valid()
      modifies this
      ensures Valid()
      ensures canInit == old(canInit) && instances == old(instances) && handlers == old(handlers)
      ensures broadcasts == old(broadcasts)
      ensures var reached := !old(canInit) && intent.responseCount != 0 && intent.wrapper.Some?;
        && (old(canInit) ==> r == Fail(NotInitialised))
        && (reached && intent.wrapper.value.message.None? ==> r == Fail(NullMessage))
        && (!old(canInit) && !(reached && intent.wrapper.value.message.None?) ==> r == Pass)
      ensures var queued := !old(canInit) && intent.responseCount != 0 && intent.wrapper.Some?
          && intent.wrapper.value.message.Some?;
        var m := Queued(intent.responseCount, if intent.wrapper.Some? then intent.wrapper.value.message else None);
        && uiQueue == (if queued && intent.runOnUiThread then old(uiQueue) + [m] else old(uiQueue))
        && backgroundQueue == (if queued && !intent.runOnUiThread then old(backgroundQueue) + [m] else old(backgroundQueue))
    {
      if canInit {
        return Fail(NotInitialised);
      }
      r := Pass;
      if intent.responseCount != 0 && intent.wrapper.Some? {
        if intent.wrapper.value.message.None? {
          return Fail(NullMessage);
        }
        var m := Queued(intent.responseCount, intent.wrapper.value.message);
        if intent.runOnUiThread {
          uiQueue := uiQueue + [m];
        } else {
          backgroundQueue := backgroundQueue + [m];
        }
      }
    }

    /** executeMessage: fails unless initialised, and on a null message.  Otherwise it
        walks the registered objects in order while the response count (-1: no limit) is
        positive, delivering the message to each object with a receiver for its exact
        class and counting one response per delivery. */
    method ExecuteMessage(q: Queued) returns (r: Result<seq<Delivery<O>>, Failure>)
      ensures canInit ==> r == Err(NotInitialised)
      ensures !canInit && q.obj.None? ==> r == Err(NullMessage)
      ensures !canInit && q.obj.Some? ==> r == Ok(Dispatch(instances, handlers, q.obj.value, Budget(q.what)))
    {
      if canInit {
        return Err(NotInitialised);
      }
      if q.obj.None? {
        return Err(NullMessage);
      }
      var message := q.obj.value;
      var responseCount := q.what;
      if responseCount == -1 {
        responseCount := INT_MAX;
      }
      var delivered: seq<Delivery<O>> := [];
      var i := 0;
      while i < |instances| && responseCount > 0
        invariant 0 <= i <= |instances|
        invariant delivered + Dispatch(instances[i..], handlers, message, responseCount)
                  == Dispatch(instances, handlers, message, Budget(q.what))
        decreases |instances| - i
      {
        var instance := instances[i];
        assert instances[i..][1..] == instances[i + 1..];
        if instance in handlers && message.className in handlers[instance] {
          var receiver := handlers[instance][message.className];
          var d := Delivery(instance, receiver.methodName, message);
          assert (delivered + [d]) + Dispatch(instances[i + 1..], handlers, message, responseCount - 1)
              == delivered + ([d] + Dispatch(instances[i + 1..], handlers, message, responseCount - 1));
          delivered := delivered + [d];
          responseCount := responseCount - 1;
        }
        i := i + 1;
      }
      assert Dispatch(instances[i..], handlers, message, responseCount) == [];
      assert delivered + [] == delivered;
      r := Ok(delivered);
    }
  }
}
