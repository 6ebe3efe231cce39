/** The attempt loop of a chat request. What the client, the helper, the upstream and the
    other requests do is an arbitrary `World` per attempt; everything the loop does to the
    outside is logged as an `Effect`, in order. */
module Gateway {
  import opened SessionRouting
  import opened Wrappers

  datatype Engine = Builtin | Resin

  datatype ContextError = Canceled | DeadlineExceeded

  const CLIENT_CLOSED := 499
  const GATEWAY_TIMEOUT := 504
  const BAD_GATEWAY := 502
  const RESIN_ATTEMPTS: nat := 10

  /** What is fixed before the loop starts. `stream` is set when the client asked for a stream,
      `vision` when images are to be described by the helper model, `visionUseProxy` when the
      helper goes through the same exit. */
  datatype Config = Config(
    engine: Engine, key: string, proxies: seq<Proxy>, limit: int,
    scoring: bool, stream: bool, vision: bool, visionUseProxy: bool)

  /** The helper's answer is turned into a description and the images are replaced by it. */
  datatype Description = Unusable | NotReplaced | Replaced

  datatype Help =
    | NotBuilt
    | HelpNotSent(transport: bool)
    | HelpNotRead(transport: bool)
    | Helped(status: int, description: Description)

  /** `rejected` tells that the body carries a free-tier or region rejection, `collapseFails`
      that an event stream cannot be folded into one document, and `message` is the error text
      of the reply and of copying it, trimmed and in lower case. */
  datatype Reply =
    | NotSent(transport: bool)
    | Replied(status: int, rejected: bool, copyFails: bool, collapseFails: bool, message: string)

  datatype World = World(
    cancelled: Option<ContextError>,
    table: Table, fault: Fault, account: Option<string>,
    help: Help, reply: Reply,
    afterSend: Option<ContextError>, waiting: Option<ContextError>)

  datatype Exit = PoolProxy(id: int) | ResinAccount(account: string)

  datatype Entry = Entry(attempt: int, exit: Exit, status: int, failed: bool)

  datatype Origin = External | Internal | User | NoOrigin

  /** A usage record. `text` is the error text of a reply that was forwarded, and None when no
      reply was. */
  datatype Record = Record(
    ok: bool, status: int, retry: int, entries: seq<Entry>, origin: Origin, text: Option<string>)

  datatype Effect =
    | ReadContext(reading: Option<ContextError>)
    | Sent(exit: Exit)
    | MarkFailure(id: int)
    | MarkSuccess(id: int)
    | ClearRoute(id: int)
    | RotateAccount
    | ResinFailure
    | ResinSuccess
    | ObserveScore(account: string, status: int, failed: bool)
    | HelperRecord(ok: bool, attempt: int)
    | Forward(status: int)
    | ErrorReply(status: int)
    | ChatRecord(record: Record)

  datatype Flow = Again | Stop(downstream: Option<ContextError>) | Served(status: int, ok: bool, text: string)

  predicate Retryable(status: int) {
    status in {408, 401, 429, 500, 502, 503, 504}
  }

  predicate Disqualified(r: Reply) {
    r.Replied? && r.status == 403 && r.rejected
  }

  /** A reply is folded into one document if the client did not ask for a stream. */
  predicate CollapseFails(cfg: Config, r: Reply)
    requires r.Replied?
  {
    !cfg.stream && 200 <= r.status < 300 && r.collapseFails
  }

  /** The status the client gets to see. */
  function Answer(cfg: Config, r: Reply): int
    requires r.Replied?
  {
    if CollapseFails(cfg, r) then BAD_GATEWAY else r.status
  }

  predicate CopyFails(cfg: Config, r: Reply)
    requires r.Replied?
  {
    CollapseFails(cfg, r) || r.copyFails
  }

  function ServedWith(cfg: Config, r: Reply): Flow
    requires r.Replied?
  {
    Served(r.status, r.status < 400 && !CopyFails(cfg, r),
           if r.status < 400 && !CopyFails(cfg, r) then "" else r.message)
  }

  // ------------------------------------------------------------------------------------
  // Whose fault a forwarded reply is.
  // ------------------------------------------------------------------------------------

  const MARKERS := [
    "context canceled", "context deadline exceeded", "unexpected eof", "proxyconnect",
    "not enough bandwidth", "could not locate image content", "vision helper",
    "error from provider", "upstream request failed", "all proxies failed"]

  predicate Mentions(text: string, marker: string) {
    exists i :: 0 <= i <= |text| && marker <= text[i..]
  }

  /** Statuses that are never the user's fault. */
  predicate Outside(status: int) {
    status == 0 || status == CLIENT_CLOSED || status >= 500 || status == 451
  }

  predicate Marked(text: string) {
    exists k :: 0 <= k < |MARKERS| && Mentions(text, MARKERS[k])
  }

  function UsageOrigin(ok: bool, status: int, text: string): Origin {
    if Outside(status) || Marked(text) then External else if ok then NoOrigin else User
  }

  function Attempts(cfg: Config): nat {
    if cfg.engine.Resin? then RESIN_ATTEMPTS
    else if |cfg.proxies| < 3 then |cfg.proxies| else 3
  }

  // ------------------------------------------------------------------------------------
  // What one attempt does, as a table of cases.
  // ------------------------------------------------------------------------------------

  function If(c: bool, e: Effect): seq<Effect> {
    if c then [e] else []
  }

  /** The exit of an attempt; none when routing fails or nothing is left to try. */
  function Route(cfg: Config, used: set<int>, w: World): Option<Exit>
    requires Distinct(cfg.proxies)
  {
    if cfg.engine.Resin? then
      if w.account.Some? then Some(ResinAccount(w.account.value)) else None
    else
      match PickFrom(w.table, cfg.key, cfg.proxies, used, cfg.limit, w.fault).0
      case Chosen(p) => Some(PoolProxy(p.id))
      case _ => None
  }

  /** The helper's part: its effects, and how the attempt ends if it ends here. */
  function HelperPart(cfg: Config, i: nat, exit: Exit, w: World): (seq<Effect>, Option<Flow>)
    requires cfg.engine.Builtin? <==> exit.PoolProxy?
  {
    var failed := HelperRecord(false, i);
    if !cfg.vision then ([], None)
    else
      match w.help
      case NotBuilt => ([failed], Some(Stop(None)))
      case HelpNotSent(transport) =>
        if !cfg.visionUseProxy then ([failed], Some(Stop(None)))
        else if cfg.engine.Resin? then ([failed, ResinFailure], Some(Stop(None)))
        else if transport then ([failed, MarkFailure(exit.id), ClearRoute(exit.id)], Some(Again))
        else ([failed, ClearRoute(exit.id)], Some(Again))
      case HelpNotRead(transport) =>
        if !cfg.visionUseProxy then ([failed], Some(Stop(None)))
        else if cfg.engine.Builtin? && transport then
          ([failed, MarkFailure(exit.id), ClearRoute(exit.id)], Some(Again))
        else ([failed], Some(Again))
      case Helped(status, description) =>
        if status >= 300 then
          if !cfg.visionUseProxy || status != 429 || i + 1 >= Attempts(cfg) then
            ([failed], Some(Stop(None)))
          else if cfg.engine.Resin? then ([failed, RotateAccount], Some(Again))
          else ([failed, ClearRoute(exit.id)], Some(Again))
        else if description.Replaced? then ([HelperRecord(true, i)], None)
        else ([failed], Some(Stop(None)))
  }

  /** A chat request that could not be sent. */
  function NotSentPart(cfg: Config, i: nat, exit: Exit, transport: bool, after: Option<ContextError>)
      : (seq<Effect>, Flow)
    requires cfg.engine.Builtin? <==> exit.PoolProxy?
  {
    if after.Some? then ([], Stop(after))
    else if exit.PoolProxy? then
      (if transport then [MarkFailure(exit.id), ClearRoute(exit.id)] else [ClearRoute(exit.id)], Again)
    else if i + 1 < Attempts(cfg) then ([RotateAccount], Again)
    else ([RotateAccount, ResinFailure], Stop(None))
  }

  /** What a reply says about the health of a pool proxy. */
  function HealthPart(id: int, r: Reply): seq<Effect>
    requires r.Replied?
  {
    if r.status == 407 then [MarkFailure(id), ClearRoute(id)]
    else if r.status < 500 && !Disqualified(r) then [MarkSuccess(id)]
    else []
  }

  /** A pool reply: a proxy that wants credentials and a retryable reply lead on to the next
      attempt, unless it is the last; everything else is forwarded. */
  function PoolReplyPart(cfg: Config, i: nat, id: int, w: World): (seq<Effect>, Flow)
    requires w.reply.Replied?
  {
    var r := w.reply;
    var health := HealthPart(id, r);
    var unstick := If(r.status == 401 || r.status == 429, ClearRoute(id));
    if r.status == 407 then (health, Again)
    else if (Retryable(r.status) || Disqualified(r)) && i + 1 < Attempts(cfg) then
      (health + unstick + If(Disqualified(r), ClearRoute(id)) + [ReadContext(w.waiting)],
       if w.waiting.Some? then Stop(w.waiting) else Again)
    else (health + unstick + [Forward(Answer(cfg, r))], ServedWith(cfg, r))
  }

  /** A reply through Resin: success of the gateway, rotation of the account when the reply
      says so, and one score observation per decision taken. */
  function ResinReplyPart(cfg: Config, i: nat, account: string, w: World): (seq<Effect>, Flow)
    requires w.reply.Replied?
  {
    var r := w.reply;
    var rotation :=
      if Retryable(r.status) || Disqualified(r) then
        If(cfg.scoring, ObserveScore(account, r.status, false)) + [RotateAccount]
      else [];
    if rotation != [] && i + 1 < Attempts(cfg) then ([ResinSuccess] + rotation, Again)
    else
      ([ResinSuccess] + rotation + [Forward(Answer(cfg, r))]
         + If(cfg.scoring, ObserveScore(account, r.status, CopyFails(cfg, r))),
       ServedWith(cfg, r))
  }

  /** Sending the chat request: its effects, the entry it leaves and where the loop goes. */
  function ChatPart(cfg: Config, i: nat, exit: Exit, w: World): (seq<Effect>, Entry, Flow)
    requires cfg.engine.Builtin? <==> exit.PoolProxy?
  {
    match w.reply
    case NotSent(transport) =>
      var (rest, flow) := NotSentPart(cfg, i, exit, transport, w.afterSend);
      ([Sent(exit)]
         + (if exit.ResinAccount? then If(cfg.scoring, ObserveScore(exit.account, 0, true)) else [])
         + [ReadContext(w.afterSend)] + rest,
       Entry(i + 1, exit, 0, true), flow)
    case Replied(status, _, _, _, _) =>
      var (rest, flow) := if exit.PoolProxy? then PoolReplyPart(cfg, i, exit.id, w)
                          else ResinReplyPart(cfg, i, exit.account, w);
      ([Sent(exit)] + rest, Entry(i + 1, exit, status, flow.Served? && CopyFails(cfg, w.reply)), flow)
  }

  datatype Step = Step(effects: seq<Effect>, exit: Option<Exit>, entries: seq<Entry>, flow: Flow)

  /** One turn of the loop. */
  function Turn(cfg: Config, i: nat, used: set<int>, w: World): Step
    requires Distinct(cfg.proxies)
  {
    var head := [ReadContext(w.cancelled)];
    if w.cancelled.Some? then Step(head, None, [], Stop(w.cancelled))
    else
      match Route(cfg, used, w)
      case None => Step(head, None, [], Stop(None))
      case Some(exit) =>
        var (help, ended) := HelperPart(cfg, i, exit, w);
        if ended.Some? then Step(head + help, Some(exit), [], ended.value)
        else
          var (chat, entry, flow) := ChatPart(cfg, i, exit, w);
          Step(head + help + chat, Some(exit), [entry], flow)
  }

  /** The failure reply and its record. */
  function Terminal(downstream: Option<ContextError>, retry: int, entries: seq<Entry>): seq<Effect> {
    match downstream
    case None =>
      [ChatRecord(Record(false, BAD_GATEWAY, retry, entries, Internal, None)), ErrorReply(BAD_GATEWAY)]
    case Some(e) =>
      var status := if e.DeadlineExceeded? then GATEWAY_TIMEOUT else CLIENT_CLOSED;
      [ChatRecord(Record(false, status, retry, entries, External, None)), ErrorReply(status)]
  }

  /** The record of a forwarded reply. */
  function ServedRecord(status: int, ok: bool, text: string, retry: int, entries: seq<Entry>): Effect {
    ChatRecord(Record(ok, status, retry, entries, UsageOrigin(ok, status, text), Some(text)))
  }

  function UsedAfter(used: set<int>, exit: Option<Exit>): set<int> {
    if exit.Some? && exit.value.PoolProxy? then used + {exit.value.id} else used
  }

  /** The loop from attempt i on. */
  function Run(cfg: Config, i: nat, used: set<int>, worlds: seq<World>, retry: int, entries: seq<Entry>)
      : seq<Effect>
    requires Distinct(cfg.proxies) && i <= Attempts(cfg) <= |worlds|
    decreases Attempts(cfg) - i
  {
    if i == Attempts(cfg) then Terminal(None, retry, entries)
    else
      var step := Turn(cfg, i, used, worlds[i]);
      var retry' := if step.exit.Some? then i else retry;
      var entries' := entries + step.entries;
      match step.flow
      case Again =>
        step.effects + Run(cfg, i + 1, UsedAfter(used, step.exit), worlds, retry', entries')
      case Stop(downstream) => step.effects + Terminal(downstream, retry', entries')
      case Served(status, ok, text) =>
        step.effects + [ServedRecord(status, ok, text, i, entries')]
  }

  /** One turn of `Run` after the log `before`. */
  lemma UnfoldRun(cfg: Config, i: nat, used: set<int>, worlds: seq<World>, retry: int,
                  entries: seq<Entry>, before: seq<Effect>)
    requires Distinct(cfg.proxies) && i < Attempts(cfg) <= |worlds|
    ensures var step := Turn(cfg, i, used, worlds[i]);
            var retry' := if step.exit.Some? then i else retry;
            var entries' := entries + step.entries;
            before + Run(cfg, i, used, worlds, retry, entries) == (before + step.effects) +
              match step.flow
              case Again => Run(cfg, i + 1, UsedAfter(used, step.exit), worlds, retry', entries')
              case Stop(downstream) => Terminal(downstream, retry', entries')
              case Served(status, ok, text) => [ServedRecord(status, ok, text, i, entries')]
  {
    hide Turn;
  }

  function Request(cfg: Config, worlds: seq<World>): seq<Effect>
    requires Distinct(cfg.proxies) && Attempts(cfg) <= |worlds|
  {
    Run(cfg, 0, {}, worlds, 0, [])
  }

  // ------------------------------------------------------------------------------------
  // The loop itself.
  // ------------------------------------------------------------------------------------

  class GatewayHandler {
    const router: SessionRouter
    var log: seq<Effect>

    constructor (router: SessionRouter)
      ensures this.router == router && log == []
    {
      this.router := router;
      log := [];
    }

    method Emit(e: Effect)
      modifies this
      ensures log == old(log) + [e]
    {
      log := log + [e];
    }

    method MarkProxyFailure(id: int)
      modifies this
      ensures log == old(log) + [MarkFailure(id)]
    {
      Emit(MarkFailure(id));
    }

    method ClearSessionProxy(key: string, id: int)
      modifies this, router`routes
      ensures log == old(log) + [ClearRoute(id)]
      ensures var routes := old(router.routes);
              router.routes ==
                if key != "" && key in routes && routes[key].proxyId == id then routes - {key} else routes
    {
      router.ClearSessionProxy(key, id);
      Emit(ClearRoute(id));
    }

    /** Asks the helper model for a description of the images. */
    method HelperTurn(cfg: Config, i: nat, exit: Exit, w: World) returns (ended: Option<Flow>)
      requires cfg.engine.Builtin? <==> exit.PoolProxy?
      modifies this, router`routes
      ensures var (effects, flow) := HelperPart(cfg, i, exit, w);
              log == old(log) + effects && ended == flow
    {
      if !cfg.vision {
        return None;
      }
      var resinMode := cfg.engine.Resin?;
      match w.help
      case NotBuilt =>
        Emit(HelperRecord(false, i));
        return Some(Stop(None));
      case HelpNotSent(transport) =>
        Emit(HelperRecord(false, i));
        if cfg.visionUseProxy {
          if resinMode {
            Emit(ResinFailure);
            return Some(Stop(None));
          }
          if transport {
            MarkProxyFailure(exit.id);
          }
          ClearSessionProxy(cfg.key, exit.id);
          return Some(Again);
        }
        return Some(Stop(None));
      case HelpNotRead(transport) =>
        Emit(HelperRecord(false, i));
        if cfg.visionUseProxy {
          if !resinMode && transport {
            MarkProxyFailure(exit.id);
            ClearSessionProxy(cfg.key, exit.id);
          }
          return Some(Again);
        }
        return Some(Stop(None));
      case Helped(status, description) =>
        if status >= 300 {
          Emit(HelperRecord(false, i));
          if cfg.visionUseProxy && status == 429 && i + 1 < Attempts(cfg) {
            if resinMode {
              Emit(RotateAccount);
            } else {
              ClearSessionProxy(cfg.key, exit.id);
            }
            return Some(Again);
          }
          return Some(Stop(None));
        }
        if !description.Replaced? {
          Emit(HelperRecord(false, i));
          return Some(Stop(None));
        }
        Emit(HelperRecord(true, i));
        return None;
    }

    /** Sends the chat request and decides what its outcome means. */
    method ChatTurn(cfg: Config, i: nat, exit: Exit, w: World) returns (entry: Entry, flow: Flow)
      requires cfg.engine.Builtin? <==> exit.PoolProxy?
      modifies this, router`routes
      ensures var (effects, e, f) := ChatPart(cfg, i, exit, w);
              log == old(log) + effects && entry == e && flow == f
    {
      var resinMode := cfg.engine.Resin?;
      Emit(Sent(exit));
      if w.reply.NotSent? {
        entry := Entry(i + 1, exit, 0, true);
        flow := FailedSend(cfg, i, exit, w);
        return;
      }
      var status := w.reply.status;
      if resinMode {
        flow := ResinReply(cfg, i, exit, w);
      } else {
        flow := PoolReply(cfg, i, exit, w);
      }
      entry := Entry(i + 1, exit, status, flow.Served? && CopyFails(cfg, w.reply));
    }

    method FailedSend(cfg: Config, i: nat, exit: Exit, w: World) returns (flow: Flow)
      requires cfg.engine.Builtin? <==> exit.PoolProxy?
      requires w.reply.NotSent?
      modifies this, router`routes
      ensures var (rest, f) := NotSentPart(cfg, i, exit, w.reply.transport, w.afterSend);
              && flow == f
              && log == old(log)
                   + (if exit.ResinAccount? then If(cfg.scoring, ObserveScore(exit.account, 0, true)) else [])
                   + [ReadContext(w.afterSend)] + rest
    {
      if cfg.engine.Resin? && cfg.scoring {
        Emit(ObserveScore(exit.account, 0, true));
      }
      Emit(ReadContext(w.afterSend));
      if w.afterSend.Some? {
        return Stop(w.afterSend);
      }
      if cfg.engine.Resin? {
        Emit(RotateAccount);
        if i + 1 < Attempts(cfg) {
          return Again;
        }
        Emit(ResinFailure);
        return Stop(None);
      }
      if w.reply.transport {
        MarkProxyFailure(exit.id);
      }
      ClearSessionProxy(cfg.key, exit.id);
      return Again;
    }

    method ResinReply(cfg: Config, i: nat, exit: Exit, w: World) returns (flow: Flow)
      requires cfg.engine.Resin? && exit.ResinAccount? && w.reply.Replied?
      modifies this
      ensures var (rest, f) := ResinReplyPart(cfg, i, exit.account, w);
              log == old(log) + rest && flow == f
    {
      var status := w.reply.status;
      Emit(ResinSuccess);
      var resinRotate := status == 429 || Retryable(status);
      if !resinRotate && Disqualified(w.reply) {
        resinRotate := true;
      }
      if resinRotate {
        if cfg.scoring {
          Emit(ObserveScore(exit.account, status, false));
        }
        Emit(RotateAccount);
        if i + 1 < Attempts(cfg) {
          return Again;
        }
      }
      var copyFails;
      copyFails, flow := CopyResponse(cfg, w.reply);
      if cfg.scoring {
        Emit(ObserveScore(exit.account, status, copyFails));
      }
    }

    /** Forwards a reply: as it comes, or folded into one document. */
    method CopyResponse(cfg: Config, r: Reply) returns (copyFails: bool, flow: Flow)
      requires r.Replied?
      modifies this
      ensures log == old(log) + [Forward(Answer(cfg, r))]
      ensures copyFails == CopyFails(cfg, r) && flow == ServedWith(cfg, r)
    {
      copyFails := r.copyFails;
      if !cfg.stream && r.status >= 200 && r.status < 300 && r.collapseFails {
        copyFails := true;
        Emit(Forward(BAD_GATEWAY));
      } else {
        Emit(Forward(r.status));
      }
      var failed := r.status >= 400 || copyFails;
      flow := Served(r.status, !failed, if failed then r.message else "");
    }

    method PoolReply(cfg: Config, i: nat, exit: Exit, w: World) returns (flow: Flow)
      requires cfg.engine.Builtin? && exit.PoolProxy? && w.reply.Replied?
      modifies this, router`routes
      ensures var (rest, f) := PoolReplyPart(cfg, i, exit.id, w);
              log == old(log) + rest && flow == f
    {
      var status := w.reply.status;
      var disqualified := Disqualified(w.reply);
      if status == 407 {
        MarkProxyFailure(exit.id);
        ClearSessionProxy(cfg.key, exit.id);
      } else if status < 500 && !disqualified {
        Emit(MarkSuccess(exit.id));
      }
      if status == 407 {
        return Again;
      }
      if status == 401 || status == 429 {
        ClearSessionProxy(cfg.key, exit.id);
      }
      if (Retryable(status) || disqualified) && i + 1 < Attempts(cfg) {
        if disqualified {
          ClearSessionProxy(cfg.key, exit.id);
        }
        Emit(ReadContext(w.waiting));
        if w.waiting.Some? {
          return Stop(w.waiting);
        }
        return Again;
      }
      var _, served := CopyResponse(cfg, w.reply);
      flow := served;
    }

    /** The exit of an attempt. Other requests may have changed the shared table meanwhile. */
    method PickExit(cfg: Config, used: set<int>, w: World) returns (exit: Option<Exit>)
      requires Distinct(cfg.proxies)
      modifies router`routes, router`rr
      ensures exit == Route(cfg, used, w)
      ensures exit.Some? ==> (cfg.engine.Builtin? <==> exit.value.PoolProxy?)
    {
      if cfg.engine.Resin? {
        return if w.account.Some? then Some(ResinAccount(w.account.value)) else None;
      }
      router.routes, router.rr := w.table.routes, w.table.rr;
      var pick := router.PickSessionProxy(cfg.key, cfg.proxies, used, cfg.limit, w.fault);
      if pick.Chosen? {
        return Some(PoolProxy(pick.proxy.id));
      }
      return None;
    }

    /** The body of the loop. The attempt entry is empty if no chat request was sent. */
    method TakeTurn(cfg: Config, i: nat, used: set<int>, w: World)
        returns (exit: Option<Exit>, summary: seq<Entry>, flow: Flow)
      requires Distinct(cfg.proxies)
      modifies this, router
      ensures var step := Turn(cfg, i, used, w);
              && log == old(log) + step.effects
              && exit == step.exit && summary == step.entries && flow == step.flow
    {
      hide HelperPart, ChatPart, Route, PickFrom;
      Emit(ReadContext(w.cancelled));
      if w.cancelled.Some? {
        return None, [], Stop(w.cancelled);
      }
      exit := PickExit(cfg, used, w);
      if exit.None? {
        return None, [], Stop(None);
      }
      var ended := HelperTurn(cfg, i, exit.value, w);
      if ended.Some? {
        return exit, [], ended.value;
      }
      var entry;
      entry, flow := ChatTurn(cfg, i, exit.value, w);
      return exit, [entry], flow;
    }

    /** Everything a request does, for every behaviour of its surroundings, is `Request`. */
    method GatewayChat(cfg: Config, worlds: seq<World>)
      requires Distinct(cfg.proxies) && Attempts(cfg) <= |worlds|
      modifies this, router
      ensures log == old(log) + Request(cfg, worlds)
    {
      var attempts := Attempts(cfg);
      var downstream: Option<ContextError> := None;
      var retryCount := 0;
      var used: set<int> := {};
      var attemptSummary: seq<Entry> := [];
      ghost var goal := log + Request(cfg, worlds);
      var i := 0;
      while i < attempts
        invariant 0 <= i <= attempts && downstream.None?
        invariant log + Run(cfg, i, used, worlds, retryCount, attemptSummary) == goal
      {
        UnfoldRun(cfg, i, used, worlds, retryCount, attemptSummary, log);
        var exit, summary, flow := TakeTurn(cfg, i, used, worlds[i]);
        attemptSummary := attemptSummary + summary;
        if exit.Some? {
          retryCount := i;
          if exit.value.PoolProxy? {
            used := used + {exit.value.id};
          }
        }
        if flow.Served? {
          var origin := UsageErrorOrigin(flow.ok, flow.status, flow.text);
          Emit(ChatRecord(Record(flow.ok, flow.status, i, attemptSummary, origin, Some(flow.text))));
          return;
        }
        if flow.Stop? {
          downstream := flow.downstream;
          assert log + Terminal(downstream, retryCount, attemptSummary) == goal;
          break;
        }
        i := i + 1;
      }
      assert log + Terminal(downstream, retryCount, attemptSummary) == goal;
      Finish(downstream, retryCount, attemptSummary);
    }

    /** `usageErrorOrigin` for a chat request. */
    method UsageErrorOrigin(ok: bool, code: int, text: string) returns (origin: Origin)
      ensures origin == UsageOrigin(ok, code, text)
    {
      if code == 0 || code == CLIENT_CLOSED || code >= 500 || code == 451 {
        return External;
      }
      var k := 0;
      while k < |MARKERS|
        invariant 0 <= k <= |MARKERS|
        invariant forall j | 0 <= j < k :: !Mentions(text, MARKERS[j])
      {
        if Mentions(text, MARKERS[k]) {
          return External;
        }
        k := k + 1;
      }
      origin := if ok then NoOrigin else User;
    }

    /** `terminalGatewayFailure`, its record and its reply. */
    method Finish(downstream: Option<ContextError>, retryCount: int, summary: seq<Entry>)
      modifies this
      ensures log == old(log) + Terminal(downstream, retryCount, summary)
    {
      var status, origin := BAD_GATEWAY, Internal;
      if downstream.Some? {
        status, origin := CLIENT_CLOSED, External;
        if downstream.value.DeadlineExceeded? {
          status := GATEWAY_TIMEOUT;
        }
      }
      Emit(ChatRecord(Record(false, status, retryCount, summary, origin, None)));
      Emit(ErrorReply(status));
    }
  }
}
