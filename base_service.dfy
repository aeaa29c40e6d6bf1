/** BaseService: the base of the library's services.  Interested parties register an
    initialised listener; once the service's background initialisation reaches its progress
    step, the service registers itself with the message manager, marks itself initialised
    and notifies every listener.  A listener that registers later is notified at once.

    A listener's onInitalized call is recorded in the sequence `notified` a method returns,
    in call order.  The background task that runs onInit is not part of this model: the
    environment calls OnProgressUpdate when the task publishes its progress. */
module Service {
  import opened Wrappers
  import opened JavaLang
  import opened Messaging

  /** The exceptions the service throws, or passes on from the message manager. */
  datatype ServiceFailure =
    | AlreadyListening
    | NotListening
    | ManagerFailure(failure: Failure)

  ghost predicate NoRepeats<L>(s: seq<L>) {
    forall i, j :: 0 <= i < j < |s| ==> s[i] != s[j]
  }

  class BaseService<O(==), L(==)> {
    /** The service as a message receiver (getContext()). */
    const self: O
    const manager: MessageManager<O>
    /** mBaseServiceInitalizedListeners, in registration order. */
    var listeners: seq<L>
    /** mInitialized. */
    var initialized: bool

    ghost predicate Valid()
      reads this, manager
    {
      manager.Valid() && NoRepeats(listeners)
    }

    /** onCreate's init: no listeners yet, not initialised. */
    constructor (self: O, manager: MessageManager<O>)
      requires manager.Valid()
      ensures Valid()
      ensures this.self == self && this.manager == manager
      ensures listeners == [] && !initialized
    {
      this.self := self;
      this.manager := manager;
      listeners := [];
      initialized := false;
    }

    /** registerBaseServiceInitalizedListener: a listener already in the list is refused.
        Otherwise it is appended, and notified at once if the service is initialised. */
    method RegisterListener(l: L) returns (r: Outcome<ServiceFailure>, notified: seq<L>)
      requires Valid()
      modifies this
      ensures Valid()
      ensures initialized == old(initialized)
      ensures l in old(listeners) ==> r == Fail(AlreadyListening) && notified == [] && listeners == old(listeners)
      ensures l !in old(listeners) ==>
        && r == Pass
        && listeners == old(listeners) + [l]
        && notified == (if initialized then [l] else [])
    {
      if l in listeners {
        return Fail(AlreadyListening), [];
      }
      forall i, j | 0 <= i < j < |listeners + [l]| ensures (listeners + [l])[i] != (listeners + [l])[j] {
        if j == |listeners| {
          assert (listeners + [l])[i] == listeners[i];
        }
      }
      listeners := listeners + [l];
      notified := [];
      if initialized {
        notified := [l];
      }
      r := Pass;
    }

    /** unregisterBaseServiceInitalizedListener: a listener not in the list is refused;
        otherwise only that listener is removed, and the others keep their order. */
    method UnregisterListener(l: L) returns (r: Outcome<ServiceFailure>)
      requires Valid()
      modifies this
      ensures Valid()
      ensures initialized == old(initialized)
      ensures l !in old(listeners) ==> r == Fail(NotListening) && listeners == old(listeners)
      ensures l in old(listeners) ==>
        && r == Pass
        && listeners == ListRemove(old(listeners), l)
        && (forall x :: x in listeners <==> x in old(listeners) && x != l)
    {
      if l !in listeners {
        return Fail(NotListening);
      }
      ListRemoveUnique(listeners, l);
      listeners := ListRemove(listeners, l);
      r := Pass;
    }

    /** The progress step of the initialisation task: register the service with the
        message manager; if that throws, the service stays uninitialised and nobody is
        notified.  Otherwise mark the service initialised and notify every listener, in
        list order. */
    method OnProgressUpdate() returns (r: Outcome<ServiceFailure>, notified: seq<L>)
      requires Valid()
      modifies this, manager
      ensures Valid()
      ensures listeners == old(listeners)
      ensures manager.canInit == old(manager.canInit) && manager.broadcasts == old(manager.broadcasts)
      ensures manager.uiQueue == old(manager.uiQueue) && manager.backgroundQueue == old(manager.backgroundQueue)
      ensures !old(manager.canInit) && self !in old(manager.instances) ==>
        manager.instances == old(manager.instances) + [self]
      ensures old(manager.canInit) || self in old(manager.instances) ==> manager.instances == old(manager.instances)
      ensures r.Pass? <==> !old(manager.canInit) && self !in old(manager.instances) && HandlerTable(manager.methodsOf(self)).Ok?
      ensures r.Pass? ==>
        && initialized && notified == listeners
        && manager.handlers == old(manager.handlers)[self := HandlerTable(manager.methodsOf(self)).value]
      ensures r.Fail? ==> initialized == old(initialized) && notified == [] && manager.handlers == old(manager.handlers)
    {
      var registered := manager.Register(self);
      if registered.Fail? {
        return Fail(ManagerFailure(registered.error)), [];
      }
      initialized := true;
      notified := [];
      for i := 0 to |listeners|
        invariant notified == listeners[..i]
      {
        notified := notified + [listeners[i]];
      }
      assert listeners[..|listeners|] == listeners;
      r := Pass;
    }

    /** onDestroy: an initialised service unregisters from the message manager; one that
        never finished initialising leaves the manager alone. */
    method OnDestroy() returns (r: Outcome<ServiceFailure>)
      requires Valid()
      modifies manager
      ensures Valid()
      ensures manager.canInit == old(manager.canInit) && manager.broadcasts == old(manager.broadcasts)
      ensures manager.uiQueue == old(manager.uiQueue) && manager.backgroundQueue == old(manager.backgroundQueue)
      ensures !initialized ==> r == Pass && manager.instances == old(manager.instances) && manager.handlers == old(manager.handlers)
      ensures initialized && !old(manager.canInit) && self in old(manager.instances) ==>
        && r == Pass
        && manager.instances == ListRemove(old(manager.instances), self)
        && manager.handlers == old(manager.handlers) - {self}
      ensures initialized && old(manager.canInit) ==> r == Fail(ManagerFailure(NotInitialised))
      ensures initialized && !old(manager.canInit) && self !in old(manager.instances) ==> r == Fail(ManagerFailure(NotRegistered))
      ensures initialized && (old(manager.canInit) || self !in old(manager.instances)) ==>
        manager.instances == old(manager.instances) && manager.handlers == old(manager.handlers)
    {
      r := Pass;
      if initialized {
        var unregistered := manager.Unregister(self);
        if unregistered.Fail? {
          r := Fail(ManagerFailure(unregistered.error));
        }
      }
    }
  }
}
