/** Session bootstrap: who a session is, over any number of hook calls, with or without a daemon. */
module Bootstrap {
  import opened Text

  const FRESH := "fresh"
  const PREASSIGNED := "preassigned"

  /** `details` stands for the fields that are only forwarded. */
  datatype Options<+D> = Options(sessionId: string, intent: string, details: D)
  datatype Request<+D> = Request(sessionId: string, intent: string, details: D)

  datatype RegisterError = DaemonUnreachable | DaemonFailed(message: string)

  /** The daemon side of a call: no client at all, or a request that may reach the daemon and may be answered. */
  datatype Contact = NoClient | Attempt(handled: bool, error: Option<RegisterError>)

  datatype Result = Result(sessionId: string, intent: string, registered: bool, registerError: Option<RegisterError>)

  /** One call: its options, what minting an id would give, and how contact with the daemon goes. */
  datatype Call<+D> = Call(opts: Options<D>, mint: Option<string>, contact: Contact)

  /** A minted id is never empty, and an attempt without an error was handled. */
  predicate Sound<D>(call: Call<D>) {
    && (call.mint.Some? ==> call.mint.value != "")
    && (call.contact.Attempt? && call.contact.error.None? ==> call.contact.handled)
  }

  /** The explicit id, else the environment's, else a minted one; nothing when that fails. */
  function Identity<D>(call: Call<D>, env: string): Option<string> {
    if call.opts.sessionId != "" then Some(call.opts.sessionId)
    else if env != "" then Some(env)
    else call.mint
  }

  predicate Mints<D>(call: Call<D>, env: string) {
    call.opts.sessionId == "" && env == "" && call.mint.Some?
  }

  function IntentOf<D>(call: Call<D>, env: string): string {
    if call.opts.intent != "" then call.opts.intent
    else if Mints(call, env) then FRESH
    else PREASSIGNED
  }

  method ResolveSessionBootstrap<D>(call: Call<D>, env: string)
    returns (result: Option<Result>, sent: Option<Request<D>>)
    requires Sound(call)
    ensures result.Some? <==> Identity(call, env).Some?
    ensures result.Some? ==>
              && Some(result.value.sessionId) == Identity(call, env)
              && result.value.intent == IntentOf(call, env)
              && (result.value.registered <==> call.contact.Attempt? && call.contact.error.None?)
              && (result.value.registered <==> result.value.registerError.None?)
              && (call.contact.NoClient? ==> result.value.registerError == Some(DaemonUnreachable))
    // An explicit id beats the environment, which beats a new one; only a new one is fresh by default.
    ensures call.opts.sessionId != "" ==> result.Some? && result.value.sessionId == call.opts.sessionId
    ensures call.opts.sessionId == "" && env != "" ==> result.Some? && result.value.sessionId == env
    ensures call.opts.sessionId == "" && env == "" ==>
              match result case Some(r) => call.mint == Some(r.sessionId) case None => call.mint == None
    ensures result.Some? && call.opts.intent != "" ==> result.value.intent == call.opts.intent
    ensures result.Some? && call.opts.intent == "" ==>
              result.value.intent == if call.opts.sessionId == "" && env == "" then "fresh" else "preassigned"
    ensures result.Some? && call.contact.Attempt? ==> result.value.registerError == call.contact.error
    ensures sent == if result.Some? && call.contact.Attempt?
                    then Some(Request(result.value.sessionId, result.value.intent, call.opts.details)) else None
    ensures sent.Some? ==> sent.value.sessionId != ""
  {
    var sessionId := call.opts.sessionId;
    if sessionId == "" {
      sessionId := env;
    }
    var intent := call.opts.intent;
    if sessionId == "" {
      if call.mint.None? {
        return None, None;
      }
      sessionId := call.mint.value;
      if intent == "" {
        intent := FRESH;
      }
    }
    if intent == "" {
      intent := PREASSIGNED;
    }
    var r := Result(sessionId, intent, false, None);
    if call.contact.NoClient? {
      return Some(r.(registerError := Some(DaemonUnreachable))), None;
    }
    sent := Some(Request(sessionId, intent, call.opts.details));
    if call.contact.error.Some? {
      return Some(r.(registerError := call.contact.error)), sent;
    }
    result := Some(r.(registered := true));
  }

  /** The environment the caller exports to, what the daemon knows, and what has happened so far. */
  datatype World = World(env: string, known: set<string>, ids: seq<string>, mints: nat, created: nat)

  /** One call, after which the caller exports the id; the daemon creates an identity only for an unseen id. */
  function After<D>(w: World, call: Call<D>): World {
    match Identity(call, w.env)
    case None => w
    case Some(id) =>
      var reached := call.contact.Attempt? && call.contact.handled;
      World(id, if reached then w.known + {id} else w.known, w.ids + [id],
            if Mints(call, w.env) then w.mints + 1 else w.mints,
            if reached && id !in w.known then w.created + 1 else w.created)
  }

  function AfterAll<D>(w: World, calls: seq<Call<D>>): World {
    if calls == [] then w else After(AfterAll(w, calls[..|calls| - 1]), calls[|calls| - 1])
  }

  ghost predicate HookCalls<D>(calls: seq<Call<D>>) {
    forall i :: 0 <= i < |calls| ==> Sound(calls[i]) && calls[i].opts.sessionId == ""
  }

  /**
   * Over any hook calls without explicit ids, however the daemon behaves: every call gives the same id,
   * the preassigned one if there is one; it is minted at most once and otherwise not at all; and the
   * daemon comes to know, and creates, at most that one identity.
   */
  lemma {:induction false} OneIdentity<D>(env: string, known: set<string>, calls: seq<Call<D>>)
    requires HookCalls(calls)
    ensures var w := AfterAll(World(env, known, [], 0, 0), calls);
            && (forall i :: 0 <= i < |w.ids| ==> w.ids[i] == w.env)
            && (env != "" ==> w.env == env && |w.ids| == |calls|)
            && (w.ids != [] ==> w.env != "")
            && w.mints == (if env == "" && w.ids != [] then 1 else 0)
            && known <= w.known <= known + {w.env}
            && w.created == (if w.known == known then 0 else 1)
            && (w.ids == [] ==> w.env == env && w.known == known)
  {
    if calls != [] {
      var n := |calls| - 1;
      OneIdentity(env, known, calls[..n]);
      assert Sound(calls[n]);
    }
  }

  function Offline<D>(calls: seq<Call<D>>): seq<Call<D>> {
    if calls == [] then []
    else Offline(calls[..|calls| - 1]) + [calls[|calls| - 1].(contact := NoClient)]
  }

  /** The ids, and what is exported and minted, are what they would be without any daemon. */
  lemma {:induction false} IdentityNeedsNoDaemon<D>(w: World, calls: seq<Call<D>>)
    ensures var online, offline := AfterAll(w, calls), AfterAll(w, Offline(calls));
            online.ids == offline.ids && online.env == offline.env && online.mints == offline.mints
  {
    if calls != [] {
      var n := |calls| - 1;
      IdentityNeedsNoDaemon(w, calls[..n]);
      var before, last := Offline(calls[..n]), calls[n].(contact := NoClient);
      assert (before + [last])[..|before|] == before;
    }
  }

  /**
   * The hook calls one after another, each with the environment the one before it exported. Without
   * explicit ids they all give one id, and every request asks for that one; and with any calls the ids,
   * what is exported and what is minted are what they would be had no daemon ever been there.
   */
  method RunHooks<D>(calls: seq<Call<D>>, env: string, known: set<string>)
    returns (w: World, requests: seq<Request<D>>)
    requires forall i :: 0 <= i < |calls| ==> Sound(calls[i])
    ensures w == AfterAll(World(env, known, [], 0, 0), calls)
    ensures var alone := AfterAll(World(env, known, [], 0, 0), Offline(calls));
            w.ids == alone.ids && w.env == alone.env && w.mints == alone.mints
    ensures HookCalls(calls) ==>
              && (forall i :: 0 <= i < |w.ids| ==> w.ids[i] == w.env)
              && (forall i :: 0 <= i < |requests| ==> requests[i].sessionId == w.env)
              && w.mints <= 1 && w.created <= 1 && w.known <= known + {w.env}
              && (env != "" ==> w.env == env && |w.ids| == |calls|)
  {
    hide HookCalls, AfterAll;
    ghost var start := World(env, known, [], 0, 0);
    w, requests := World(env, known, [], 0, 0), [];
    AfterNone(start, calls);
    for i := 0 to |calls|
      invariant w == AfterAll(start, calls[..i])
      invariant forall j :: 0 <= j < |requests| ==> requests[j].sessionId in w.ids
    {
      var call := calls[i];
      var result, sent := ResolveSessionBootstrap(call, w.env);
      AfterOneMore(start, calls, i);
      if result.Some? {
        var id := result.value.sessionId;
        var minted := call.opts.sessionId == "" && w.env == "";
        var reached := sent.Some? && call.contact.handled;
        w := World(id, if reached then w.known + {id} else w.known, w.ids + [id],
          if minted then w.mints + 1 else w.mints, if reached && id !in w.known then w.created + 1 else w.created);
        if sent.Some? {
          requests := requests + [sent.value];
        }
      }
    }
    assert calls[..|calls|] == calls;
    IdentityNeedsNoDaemon(start, calls);
    if HookCalls(calls) {
      OneIdentity(env, known, calls);
    }
  }

  lemma {:induction false} AfterNone<D>(w: World, calls: seq<Call<D>>)
    ensures AfterAll(w, calls[..0]) == w
  {
  }

  lemma {:induction false} AfterOneMore<D>(w: World, calls: seq<Call<D>>, i: nat)
    requires i < |calls|
    ensures AfterAll(w, calls[..i + 1]) == After(AfterAll(w, calls[..i]), calls[i])
  {
    assert calls[..i + 1][..i] == calls[..i];
  }
}
