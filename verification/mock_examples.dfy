/** The mocking example: an event emitter whose listener table is updated in
    place, a user service whose database and e-mail service are parameters,
    and `processWithCallback`. */
module MockExamples {

  // ---- EventEmitter ----

  /** A listener, identified by the order in which the caller created it. */
  type ListenerId = nat

  /** One listener invocation: which listener ran, with which arguments. */
  datatype Invocation = Invocation(listener: ListenerId, args: seq<string>)

  /** The listeners registered for `event`, or none. */
  function Listeners(table: map<string, seq<ListenerId>>, event: string): seq<ListenerId> {
    if event in table then table[event] else []
  }

  /** The table after `on(event, listener)`. */
  function AddListener(table: map<string, seq<ListenerId>>, event: string, listener: ListenerId)
    : (r: map<string, seq<ListenerId>>)
    ensures r.Keys == table.Keys + {event}
  {
    table[event := Listeners(table, event) + [listener]]
  }

  /** `on` appends to the event's list, creating it when absent, keeps
      duplicates, and leaves every other event's list unchanged. */
  lemma AddListenerSpec(table: map<string, seq<ListenerId>>, event: string, listener: ListenerId, other: string)
    ensures Listeners(AddListener(table, event, listener), event) == Listeners(table, event) + [listener]
    ensures |Listeners(AddListener(table, event, listener), event)| == |Listeners(table, event)| + 1
    ensures other != event ==> Listeners(AddListener(table, event, listener), other) == Listeners(table, other)
  {
  }

  /** The invocations `emit(event, ...args)` performs on a table: each listener
      of the event, in registration order, with the same arguments. */
  function Invocations(ids: seq<ListenerId>, args: seq<string>): (r: seq<Invocation>)
    ensures |r| == |ids|
    ensures forall i :: 0 <= i < |r| ==> r[i].listener == ids[i] && r[i].args == args
  {
    if ids == [] then [] else [Invocation(ids[0], args)] + Invocations(ids[1..], args)
  }

  class EventEmitter {
    var listeners: map<string, seq<ListenerId>>

    constructor ()
      ensures listeners == map[]
    {
      listeners := map[];
    }

    /** `on(event, listener)`. */
    method On(event: string, listener: ListenerId)
      modifies this`listeners
      ensures listeners == AddListener(old(listeners), event, listener)
    {
      if event !in listeners {
        listeners := listeners[event := []];
      }
      listeners := listeners[event := listeners[event] + [listener]];
    }

    /** `emit(event, ...args)`: runs the event's listeners one after another
        and reports the invocations; nothing runs for an unknown event. */
    method Emit(event: string, args: seq<string>) returns (calls: seq<Invocation>)
      ensures calls == Invocations(Listeners(listeners, event), args)
      ensures event !in listeners ==> calls == []
    {
      calls := [];
      if event in listeners {
        var eventListeners := listeners[event];
        for i := 0 to |eventListeners|
          invariant calls == Invocations(eventListeners[..i], args)
        {
          InvocationsSnoc(eventListeners[..i], eventListeners[i], args);
          assert eventListeners[..i + 1] == eventListeners[..i] + [eventListeners[i]];
          calls := calls + [Invocation(eventListeners[i], args)];
        }
        assert eventListeners[..|eventListeners|] == eventListeners;
      }
    }
  }

  lemma {:induction false} InvocationsSnoc(ids: seq<ListenerId>, id: ListenerId, args: seq<string>)
    ensures Invocations(ids + [id], args) == Invocations(ids, args) + [Invocation(id, args)]
  {
    if ids != [] {
      InvocationsSnoc(ids[1..], id, args);
      assert (ids + [id])[1..] == ids[1..] + [id];
    }
  }

  /** The two emitter scenarios: two listeners on "test" both receive
      ("arg1", "arg2") in registration order; a listener on "event1" does not
      run when "event2" is emitted. */
  method EmitterScenarios() returns (both: seq<Invocation>, none: seq<Invocation>)
    ensures both == [Invocation(1, ["arg1", "arg2"]), Invocation(2, ["arg1", "arg2"])]
    ensures none == []
  {
    var emitter := new EventEmitter();
    emitter.On("test", 1);
    emitter.On("test", 2);
    both := emitter.Emit("test", ["arg1", "arg2"]);
    var other := new EventEmitter();
    other.On("event1", 3);
    none := other.Emit("event2", ["data"]);
  }

  // ---- UserService ----

  /** A call the service makes on its database or e-mail service. */
  datatype ServiceCall =
    | ValidateEmail(email: string)
    | FindUser(id: string)
    | SaveUser(id: string, name: string)
    | SendEmail(to: string, subject: string, body: string)
    | DeleteUser(id: string)

  predicate IsDbCall(c: ServiceCall) {
    c.FindUser? || c.SaveUser? || c.DeleteUser?
  }

  /** The result of a service operation, the database afterwards, and the
      calls made in order. */
  datatype Outcome<T> = Outcome(result: T, db: map<string, string>, calls: seq<ServiceCall>)

  datatype CreateResult = CreateResult(success: bool, message: string)

  function WelcomeBody(name: string): string {
    "Hello " + name + ", welcome to our service!"
  }

  /** `createUser(id, name, email)` against a database holding `db` (id to
      name), an e-mail validator `isValid`, and a mailer whose send reports
      `sendOk`. */
  function CreateUser(id: string, name: string, email: string,
                      isValid: string -> bool, db: map<string, string>, sendOk: bool)
    : (r: Outcome<CreateResult>)
    ensures r.calls != [] && r.calls[0] == ValidateEmail(email)
    ensures !isValid(email) ==>
      r.result == CreateResult(false, "Invalid email address") && r.db == db
      && forall c :: c in r.calls ==> !IsDbCall(c)
    ensures isValid(email) && id in db ==>
      r.result == CreateResult(false, "User already exists") && r.db == db
      && SaveUser(id, name) !in r.calls
    ensures r.result.success <==> isValid(email) && id !in db
    ensures r.result.success ==>
      r.db == db[id := name] && SaveUser(id, name) in r.calls
      && SendEmail(email, "Welcome!", WelcomeBody(name)) in r.calls
      && r.result.message ==
         (if sendOk then "User created and welcome email sent" else "User created but email failed")
  {
    if !isValid(email) then
      Outcome(CreateResult(false, "Invalid email address"), db, [ValidateEmail(email)])
    else if id in db then
      Outcome(CreateResult(false, "User already exists"), db, [ValidateEmail(email), FindUser(id)])
    else
      Outcome(
        CreateResult(true, if sendOk then "User created and welcome email sent" else "User created but email failed"),
        db[id := name],
        [ValidateEmail(email), FindUser(id), SaveUser(id, name), SendEmail(email, "Welcome!", WelcomeBody(name))])
  }

  /** A save happens exactly when the user is created, and the outcome of
      sending the welcome e-mail changes only the message. */
  lemma CreateUserSaves(id: string, name: string, email: string,
                        isValid: string -> bool, db: map<string, string>, sendOk: bool)
    ensures SaveUser(id, name) in CreateUser(id, name, email, isValid, db, sendOk).calls
        <==> CreateUser(id, name, email, isValid, db, sendOk).result.success
    ensures CreateUser(id, name, email, isValid, db, sendOk).db == CreateUser(id, name, email, isValid, db, !sendOk).db
    ensures CreateUser(id, name, email, isValid, db, sendOk).result.success
        == CreateUser(id, name, email, isValid, db, !sendOk).result.success
  {
  }

  /** `removeUser(id)`: looks the user up and deletes only a present one,
      answering with what the delete reports (`deleteOk`). */
  function RemoveUser(id: string, db: map<string, string>, deleteOk: bool): (r: Outcome<bool>)
    ensures r.calls != [] && r.calls[0] == FindUser(id)
    ensures id !in db ==> !r.result && r.db == db && DeleteUser(id) !in r.calls
    ensures id in db ==> r.result == deleteOk && DeleteUser(id) in r.calls
    ensures r.db.Keys <= db.Keys && (r.result ==> id !in r.db)
  {
    if id !in db then Outcome(false, db, [FindUser(id)])
    else Outcome(deleteOk, if deleteOk then db - {id} else db, [FindUser(id), DeleteUser(id)])
  }

  /** The service tests: success with a sent mail, invalid e-mail, existing
      user, failed mail, removal of a present and of an absent user. */
  lemma UserServiceScenarios(isValid: string -> bool)
    requires isValid("miko@example.com") && !isValid("invalid-email")
    ensures CreateUser("1", "Miko", "miko@example.com", isValid, map[], true).result
         == CreateResult(true, "User created and welcome email sent")
    ensures CreateUser("1", "Miko", "miko@example.com", isValid, map[], true).calls
         == [ValidateEmail("miko@example.com"), FindUser("1"), SaveUser("1", "Miko"),
             SendEmail("miko@example.com", "Welcome!", "Hello Miko, welcome to our service!")]
    ensures CreateUser("1", "Miko", "invalid-email", isValid, map[], true).calls == [ValidateEmail("invalid-email")]
    ensures CreateUser("1", "Miko", "miko@example.com", isValid, map["1" := "Existing User"], true).result
         == CreateResult(false, "User already exists")
    ensures CreateUser("1", "Miko", "miko@example.com", isValid, map[], false).result
         == CreateResult(true, "User created but email failed")
    ensures RemoveUser("1", map["1" := "Miko"], true).result
    ensures RemoveUser("999", map[], true).calls == [FindUser("999")]
  {
    assert WelcomeBody("Miko") == "Hello Miko, welcome to our service!";
  }

  // ---- processWithCallback ----

  /** `items.map(callback)`. */
  function ProcessWithCallback(items: seq<string>, callback: string -> string): (r: seq<string>)
    ensures |r| == |items|
    ensures forall i :: 0 <= i < |items| ==> r[i] == callback(items[i])
  {
    if items == [] then [] else [callback(items[0])] + ProcessWithCallback(items[1..], callback)
  }

  /** Mapping distributes over concatenation. */
  lemma ProcessWithCallbackAppend(a: seq<string>, b: seq<string>, callback: string -> string)
    ensures ProcessWithCallback(a + b, callback) == ProcessWithCallback(a, callback) + ProcessWithCallback(b, callback)
  {
    var l, r := ProcessWithCallback(a + b, callback), ProcessWithCallback(a, callback) + ProcessWithCallback(b, callback);
    forall i | 0 <= i < |a| + |b| ensures l[i] == r[i] {
      if i < |a| { assert (a + b)[i] == a[i]; } else { assert (a + b)[i] == b[i - |a|]; }
    }
  }
}
