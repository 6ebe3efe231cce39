/** What holds of every gateway run, whatever the client, the helper, the upstream and the
    other requests do. */
module GatewayLaws {
  import opened SessionRouting
  import opened Gateway
  import opened Wrappers

  // ------------------------------------------------------------------------------------
  // Kinds of effects.
  // ------------------------------------------------------------------------------------

  predicate OnPool(e: Effect) {
    e.MarkFailure? || e.MarkSuccess? || e.ClearRoute? || (e.Sent? && e.exit.PoolProxy?)
  }

  predicate OnResin(e: Effect) {
    e.RotateAccount? || e.ResinFailure? || e.ResinSuccess? || e.ObserveScore?
    || (e.Sent? && e.exit.ResinAccount?)
  }

  /** Of the other engine. */
  predicate Foreign(cfg: Config, e: Effect) {
    if cfg.engine.Resin? then OnPool(e) else OnResin(e)
  }

  datatype Kind = AFailureMark | AResponse | ARecord | AResinFailure

  predicate Is(kind: Kind, e: Effect) {
    match kind
    case AFailureMark => e.MarkFailure?
    case AResponse => e.Forward? || e.ErrorReply?
    case ARecord => e.ChatRecord?
    case AResinFailure => e.ResinFailure?
  }

  ghost predicate Occurs(kind: Kind, log: seq<Effect>) {
    exists e :: e in log && Is(kind, e)
  }

  ghost predicate AtMostOne(kind: Kind, log: seq<Effect>) {
    forall j, k | 0 <= j < k < |log| :: !(Is(kind, log[j]) && Is(kind, log[k]))
  }

  lemma OnceInBoth(kind: Kind, left: seq<Effect>, right: seq<Effect>)
    requires AtMostOne(kind, left) && AtMostOne(kind, right)
    requires !Occurs(kind, left) || !Occurs(kind, right)
    ensures AtMostOne(kind, left + right)
    ensures Occurs(kind, left + right) <==> Occurs(kind, left) || Occurs(kind, right)
  {
    var log := left + right;
    forall j, k | 0 <= j < k < |log|
      ensures !(Is(kind, log[j]) && Is(kind, log[k]))
    {
      assert j < |left| ==> log[j] == left[j] && log[j] in left;
      assert k >= |left| ==> log[k] == right[k - |left|] && log[k] in right;
      assert j >= |left| ==> log[j] == right[j - |left|];
    }
    assert forall e | e in log :: e in left || e in right;
    assert forall e | e in left :: e in log;
    assert forall e | e in right :: e in log;
  }

  predicate Cancellation(e: Effect) {
    e.ReadContext? && e.reading.Some?
  }

  function Sends(log: seq<Effect>): seq<Exit> {
    if log == [] then []
    else if log[0].Sent? then [log[0].exit] + Sends(log[1..])
    else Sends(log[1..])
  }

  /** The proxies marked as failed, in order. */
  function Failures(log: seq<Effect>): seq<int> {
    if log == [] then []
    else if log[0].MarkFailure? then [log[0].id] + Failures(log[1..])
    else Failures(log[1..])
  }

  lemma {:induction false} SendsConcat(left: seq<Effect>, right: seq<Effect>)
    ensures Sends(left + right) == Sends(left) + Sends(right)
  {
    if left == [] {
      assert left + right == right;
    } else {
      SendsConcat(left[1..], right);
      assert (left + right)[1..] == left[1..] + right;
    }
  }

  lemma {:induction false} FailuresConcat(left: seq<Effect>, right: seq<Effect>)
    ensures Failures(left + right) == Failures(left) + Failures(right)
  {
    if left == [] {
      assert left + right == right;
    } else {
      FailuresConcat(left[1..], right);
      assert (left + right)[1..] == left[1..] + right;
    }
  }

  lemma {:induction false} NoSends(log: seq<Effect>)
    requires forall e | e in log :: !e.Sent?
    ensures Sends(log) == []
  {
    if log != [] {
      NoSends(log[1..]);
    }
  }

  lemma {:induction false} NoFailures(log: seq<Effect>)
    requires forall e | e in log :: !e.MarkFailure?
    ensures Failures(log) == []
  {
    if log != [] {
      NoFailures(log[1..]);
    }
  }

  /** At most one failure mark, and if there is one it is for `exit`. */
  lemma {:induction false} FailuresOf(exit: Exit, log: seq<Effect>)
    requires AtMostOne(AFailureMark, log)
    requires forall e | e in log && e.MarkFailure? :: exit == PoolProxy(e.id)
    ensures Failures(log) == [] || (exit.PoolProxy? && Failures(log) == [exit.id])
  {
    if log != [] {
      if log[0].MarkFailure? {
        forall e | e in log[1..]
          ensures !e.MarkFailure?
        {
          var k :| 0 <= k < |log[1..]| && log[1..][k] == e;
          assert log[k + 1] == e;
        }
        NoFailures(log[1..]);
      } else {
        FailuresOf(exit, log[1..]);
      }
    }
  }

  // ------------------------------------------------------------------------------------
  // One turn.
  // ------------------------------------------------------------------------------------

  /** What every part of a turn keeps: no failure reply and no record, nothing of the other
      engine, and nothing done to a proxy other than its own exit. */
  ghost predicate Tame(cfg: Config, exit: Exit, log: seq<Effect>) {
    forall e | e in log ::
      && !Foreign(cfg, e) && !e.ErrorReply? && !e.ChatRecord?
      && (e.MarkFailure? || e.MarkSuccess? || e.ClearRoute? ==> exit == PoolProxy(e.id))
  }

  ghost predicate Silent(log: seq<Effect>) {
    forall e | e in log :: !e.Sent? && !e.Forward? && !e.ReadContext?
  }

  lemma HelperPartFacts(cfg: Config, i: nat, exit: Exit, w: World)
    requires cfg.engine.Builtin? <==> exit.PoolProxy?
    ensures var (log, ended) := HelperPart(cfg, i, exit, w);
            && Tame(cfg, exit, log) && Silent(log)
            && AtMostOne(AFailureMark, log) && AtMostOne(AResinFailure, log)
            && (ResinFailure in log ==> ended == Some(Stop(None)))
            && (ended.Some? ==> ended.value == Again || ended.value == Stop(None))
            && (ended.None? ==> forall e | e in log :: e.HelperRecord?)
            && (!cfg.vision ==> ended.None?)
  {
  }

  lemma NotSentPartFacts(cfg: Config, i: nat, exit: Exit, transport: bool, after: Option<ContextError>)
    requires cfg.engine.Builtin? <==> exit.PoolProxy?
    ensures var (log, flow) := NotSentPart(cfg, i, exit, transport, after);
            && Tame(cfg, exit, log) && Silent(log)
            && AtMostOne(AFailureMark, log) && AtMostOne(AResinFailure, log)
            && (ResinFailure in log ==> flow == Stop(None))
            && (after.Some? ==> log == [] && flow == Stop(after))
            && (after.None? ==> flow == Again || flow == Stop(None))
            && (flow == Stop(None) ==> cfg.engine.Resin? && i + 1 >= Attempts(cfg))
  {
  }

  /** What the client sees of a served request is the status on record, but for a reply that
      could not be folded into one document: that is a 502 to the client, recorded as failed
      with its own status. */
  predicate Answered(cfg: Config, answer: int, status: int, ok: bool) {
    answer == status || (answer == 502 && 200 <= status < 300 && !ok && !cfg.stream)
  }

  /** A reply is forwarded exactly when the attempt serves the request. */
  ghost predicate Forwards(cfg: Config, w: World, log: seq<Effect>, flow: Flow)
    requires w.reply.Replied?
  {
    && (flow.Served? <==> exists e :: e in log && e.Forward?)
    && (flow.Served? ==> flow.status == w.reply.status)
    && Answers(cfg, log, flow)
  }

  ghost predicate Answers(cfg: Config, log: seq<Effect>, flow: Flow) {
    forall e | e in log && e.Forward? :: flow.Served? && Answered(cfg, e.status, flow.status, flow.ok)
  }

  /** When the flow stops for the client, that reading is the last effect; otherwise no
      cancellation was read at all. */
  ghost predicate StopsFor(log: seq<Effect>, flow: Flow) {
    if flow.Stop? && flow.downstream.Some? then
      && |log| > 0 && log[|log| - 1] == ReadContext(flow.downstream)
      && forall e | e in log[..|log| - 1] :: !Cancellation(e)
    else forall e | e in log :: !Cancellation(e)
  }

  /** The statuses on which the gateway tries another exit. */
  predicate AsksForAnother(status: int) {
    || status == 401 || status == 408 || status == 429
    || status == 500 || status == 502 || status == 503 || status == 504
  }

  predicate Justified(cfg: Config, status: int) {
    AsksForAnother(status) || status == 403 || (status == 407 && cfg.engine.Builtin?)
  }

  lemma PoolReplyFacts(cfg: Config, i: nat, id: int, w: World)
    requires cfg.engine.Builtin? && w.reply.Replied?
    ensures var (log, flow) := PoolReplyPart(cfg, i, id, w);
            && AtMostOne(AFailureMark, log)
            && (flow.Served? && AsksForAnother(w.reply.status) ==> i + 1 >= Attempts(cfg))
            && (flow.Again? ==> Justified(cfg, w.reply.status))
  {
  }

  lemma PoolReplyIsTame(cfg: Config, i: nat, id: int, w: World)
    requires cfg.engine.Builtin? && w.reply.Replied?
    ensures var log := PoolReplyPart(cfg, i, id, w).0;
            && Tame(cfg, PoolProxy(id), log)
            && ResinFailure !in log && (forall e | e in log :: !e.Sent?)
  {
  }

  lemma PoolReplyForwards(cfg: Config, i: nat, id: int, w: World)
    requires cfg.engine.Builtin? && w.reply.Replied?
    ensures var (log, flow) := PoolReplyPart(cfg, i, id, w);
            Forwards(cfg, w, log, flow) && AtMostOne(AResponse, log)
  {
    var (log, flow) := PoolReplyPart(cfg, i, id, w);
    if flow.Served? {
      assert log[|log| - 1] == Forward(Answer(cfg, w.reply));
    }
  }

  lemma PoolReplyEnds(cfg: Config, i: nat, id: int, w: World)
    requires cfg.engine.Builtin? && w.reply.Replied?
    ensures var (log, flow) := PoolReplyPart(cfg, i, id, w);
            StopsFor(log, flow) && flow != Stop(None)
  {
    var (log, flow) := PoolReplyPart(cfg, i, id, w);
    if flow.Stop? {
      var r := w.reply;
      var front := HealthPart(id, r) + If(r.status == 401 || r.status == 429, ClearRoute(id))
                   + If(Disqualified(r), ClearRoute(id));
      assert log[..|log| - 1] == front;
    }
  }

  lemma ResinReplyFacts(cfg: Config, i: nat, account: string, w: World)
    requires cfg.engine.Resin? && w.reply.Replied?
    ensures var (log, flow) := ResinReplyPart(cfg, i, account, w);
            && AtMostOne(AFailureMark, log)
            && (flow.Served? && AsksForAnother(w.reply.status) ==> i + 1 >= Attempts(cfg))
            && (flow.Again? ==> Justified(cfg, w.reply.status))
  {
  }

  lemma ResinReplyIsTame(cfg: Config, i: nat, account: string, w: World)
    requires cfg.engine.Resin? && w.reply.Replied?
    ensures var log := ResinReplyPart(cfg, i, account, w).0;
            && Tame(cfg, ResinAccount(account), log)
            && ResinFailure !in log && (forall e | e in log :: !e.Sent?)
  {
  }

  lemma ResinReplyForwards(cfg: Config, i: nat, account: string, w: World)
    requires cfg.engine.Resin? && w.reply.Replied?
    ensures var (log, flow) := ResinReplyPart(cfg, i, account, w);
            Forwards(cfg, w, log, flow) && AtMostOne(AResponse, log)
  {
    var (log, flow) := ResinReplyPart(cfg, i, account, w);
    if flow.Served? {
      assert Forward(Answer(cfg, w.reply)) in log;
    }
  }

  lemma ResinReplyEnds(cfg: Config, i: nat, account: string, w: World)
    requires cfg.engine.Resin? && w.reply.Replied?
    ensures var (log, flow) := ResinReplyPart(cfg, i, account, w);
            StopsFor(log, flow) && !flow.Stop?
  {
  }

  /** A reply is scored once, except that a reply asking for another account is scored a
      second time when it comes from the last attempt. */
  lemma LastRotationIsScoredTwice(cfg: Config, i: nat, account: string, w: World)
    requires cfg.engine.Resin? && cfg.scoring && w.reply.Replied?
    ensures var log := ResinReplyPart(cfg, i, account, w).0;
            && (exists k :: 0 <= k < |log| && log[k].ObserveScore?)
            && ((exists j, k :: 0 <= j < k < |log| && log[j].ObserveScore? && log[k].ObserveScore?)
                <==> (AsksForAnother(w.reply.status) || (w.reply.status == 403 && w.reply.rejected))
                     && i + 1 >= Attempts(cfg))
  {
    var log := ResinReplyPart(cfg, i, account, w).0;
    if AsksForAnother(w.reply.status) || (w.reply.status == 403 && w.reply.rejected) {
      assert log[1].ObserveScore?;
      if i + 1 >= Attempts(cfg) {
        assert log[4].ObserveScore?;
      }
    } else {
      assert log[2].ObserveScore?;
    }
  }

  /** All that is used of the chat part of a turn. */
  ghost predicate ChatFacts(cfg: Config, i: nat, exit: Exit, w: World,
                            log: seq<Effect>, entry: Entry, flow: Flow)
  {
    && Tame(cfg, exit, log)
    && Sends(log) == [exit]
    && entry.attempt == i + 1 && entry.exit == exit
    && (AtMostOne(AFailureMark, log) && AtMostOne(AResinFailure, log) && AtMostOne(AResponse, log))
    && (Occurs(AResinFailure, log) ==> flow == Stop(None))
    && (flow.Served? <==> Occurs(AResponse, log))
    && StopsFor(log, flow) && Answers(cfg, log, flow)
    && (flow.Served? ==> entry.status == flow.status && (AsksForAnother(flow.status) ==> i + 1 >= Attempts(cfg)))
    && (flow.Again? ==> entry.failed || Justified(cfg, entry.status))
  }

  function SendHead(cfg: Config, exit: Exit, after: Option<ContextError>): seq<Effect> {
    [Sent(exit)]
      + (if exit.ResinAccount? then If(cfg.scoring, ObserveScore(exit.account, 0, true)) else [])
      + [ReadContext(after)]
  }

  lemma SendHeadFacts(cfg: Config, exit: Exit, after: Option<ContextError>)
    requires cfg.engine.Builtin? <==> exit.PoolProxy?
    ensures var head := SendHead(cfg, exit, after);
            && Tame(cfg, exit, head) && Sends(head) == [exit]
            && (forall e | e in head :: !e.MarkFailure? && !e.ResinFailure? && !e.Forward?)
            && |head| > 0 && head[|head| - 1] == ReadContext(after)
            && forall e | e in head[..|head| - 1] :: !Cancellation(e)
  {
    var head := SendHead(cfg, exit, after);
    NoSends(head[1..]);
    if |head| == 3 {
      assert head[..2] == [head[0], head[1]];
    } else {
      assert head[..1] == [head[0]];
    }
  }

  lemma FailedSendFacts(cfg: Config, i: nat, exit: Exit, w: World)
    requires (cfg.engine.Builtin? <==> exit.PoolProxy?) && w.reply.NotSent?
    ensures var (log, entry, flow) := ChatPart(cfg, i, exit, w);
            ChatFacts(cfg, i, exit, w, log, entry, flow)
  {
    hide NotSentPart, Sends, Foreign;
    var (rest, flow) := NotSentPart(cfg, i, exit, w.reply.transport, w.afterSend);
    NotSentPartFacts(cfg, i, exit, w.reply.transport, w.afterSend);
    SendHeadFacts(cfg, exit, w.afterSend);
    var head := SendHead(cfg, exit, w.afterSend);
    var log := head + rest;
    assert ChatPart(cfg, i, exit, w).0 == log;
    SendsConcat(head, rest);
    NoSends(rest);
    assert [exit] + [] == [exit];
    OnceInBoth(AFailureMark, head, rest);
    OnceInBoth(AResinFailure, head, rest);
    OnceInBoth(AResponse, head, rest);
    if w.afterSend.Some? {
      assert log == head;
    }
  }

  lemma RepliedFacts(cfg: Config, i: nat, exit: Exit, w: World)
    requires (cfg.engine.Builtin? <==> exit.PoolProxy?) && w.reply.Replied?
    ensures var (log, entry, flow) := ChatPart(cfg, i, exit, w);
            ChatFacts(cfg, i, exit, w, log, entry, flow)
  {
    hide PoolReplyPart, ResinReplyPart, Justified;
    if exit.PoolProxy? {
      PoolReplyFacts(cfg, i, exit.id, w);
      PoolReplyIsTame(cfg, i, exit.id, w);
      PoolReplyForwards(cfg, i, exit.id, w);
      PoolReplyEnds(cfg, i, exit.id, w);
    } else {
      ResinReplyFacts(cfg, i, exit.account, w);
      ResinReplyIsTame(cfg, i, exit.account, w);
      ResinReplyForwards(cfg, i, exit.account, w);
      ResinReplyEnds(cfg, i, exit.account, w);
    }
    var (rest, flow) := if exit.PoolProxy? then PoolReplyPart(cfg, i, exit.id, w)
                        else ResinReplyPart(cfg, i, exit.account, w);
    SentThen(cfg, exit, rest, flow);
  }

  lemma SentIsTame(cfg: Config, exit: Exit)
    requires cfg.engine.Builtin? <==> exit.PoolProxy?
    ensures !Foreign(cfg, Sent(exit))
  {
  }

  lemma SentThen(cfg: Config, exit: Exit, rest: seq<Effect>, flow: Flow)
    requires cfg.engine.Builtin? <==> exit.PoolProxy?
    requires Tame(cfg, exit, rest) && StopsFor(rest, flow)
    requires forall e | e in rest :: !e.Sent? && !e.ResinFailure?
    requires AtMostOne(AFailureMark, rest) && AtMostOne(AResponse, rest)
    ensures var log := [Sent(exit)] + rest;
            && Tame(cfg, exit, log) && Sends(log) == [exit] && StopsFor(log, flow)
            && AtMostOne(AFailureMark, log) && AtMostOne(AResponse, log) && AtMostOne(AResinFailure, log)
            && !Occurs(AResinFailure, log)
            && (Occurs(AResponse, log) <==> exists e :: e in rest && e.Forward?)
  {
    hide Foreign;
    SentIsTame(cfg, exit);
    var log := [Sent(exit)] + rest;
    assert log[1..] == rest;
    NoSends(rest);
    OnceInBoth(AFailureMark, [Sent(exit)], rest);
    OnceInBoth(AResponse, [Sent(exit)], rest);
    if flow.Stop? && flow.downstream.Some? {
      assert log[..|log| - 1] == [Sent(exit)] + rest[..|rest| - 1];
    }
  }

  function Exits(entries: seq<Entry>): (r: seq<Exit>)
    ensures |r| == |entries| && forall k | 0 <= k < |entries| :: r[k] == entries[k].exit
  {
    seq(|entries|, k requires 0 <= k < |entries| => entries[k].exit)
  }

  /** A pool exit is an offered proxy not tried before. */
  predicate NewExit(cfg: Config, used: set<int>, exit: Exit) {
    && (cfg.engine.Builtin? <==> exit.PoolProxy?)
    && (exit.PoolProxy? ==> exit.id !in used && exists p :: p in cfg.proxies && p.id == exit.id)
  }

  /** All that is used of one turn: what it does, what it notes, and how it ends. */
  ghost predicate TurnFacts(cfg: Config, i: nat, used: set<int>, s: Step) {
    TurnEffects(cfg, used, s) && TurnEntries(cfg, i, s) && TurnEnds(cfg, s)
  }

  ghost predicate TurnEffects(cfg: Config, used: set<int>, s: Step) {
    && (forall e | e in s.effects ::
          && !Foreign(cfg, e) && !e.ErrorReply? && !e.ChatRecord?
          && (e.MarkFailure? || e.MarkSuccess? || e.ClearRoute? ==> s.exit == Some(PoolProxy(e.id))))
    && (s.exit.Some? ==> NewExit(cfg, used, s.exit.value))
    && (s.exit.None? ==> s.flow.Stop?)
    && (AtMostOne(AFailureMark, s.effects) && AtMostOne(AResinFailure, s.effects)
        && AtMostOne(AResponse, s.effects))
  }

  ghost predicate TurnEntries(cfg: Config, i: nat, s: Step) {
    && Sends(s.effects) == Exits(s.entries)
    && |s.entries| <= 1
    && (s.entries != [] ==> s.entries[0].attempt == i + 1 && s.exit == Some(s.entries[0].exit))
    && (!cfg.vision && s.exit.Some? ==> s.entries != [])
    && (s.exit.None? ==> s.flow.Stop?)
    && (s.flow.Served? ==>
          && s.entries != [] && s.entries[0].status == s.flow.status
          && (AsksForAnother(s.flow.status) ==> i + 1 >= Attempts(cfg)))
    && (s.flow.Again? && s.entries != [] ==>
          s.entries[0].failed || Justified(cfg, s.entries[0].status))
  }

  ghost predicate TurnEnds(cfg: Config, s: Step) {
    && (Occurs(AResinFailure, s.effects) ==> s.flow == Stop(None))
    && (s.flow.Served? <==> Occurs(AResponse, s.effects))
    && StopsFor(s.effects, s.flow) && Answers(cfg, s.effects, s.flow)
  }

  lemma RouteIsNew(cfg: Config, used: set<int>, w: World)
    requires Distinct(cfg.proxies)
    ensures Route(cfg, used, w).Some? ==> NewExit(cfg, used, Route(cfg, used, w).value)
  {
  }

  lemma TurnIsOk(cfg: Config, i: nat, used: set<int>, w: World)
    requires Distinct(cfg.proxies)
    ensures TurnFacts(cfg, i, used, Turn(cfg, i, used, w))
  {
    hide HelperPart, ChatPart, Route, Foreign, AtMostOne, Sends, Justified, AsksForAnother, Answered;
    var head := [ReadContext(w.cancelled)];
    RouteIsNew(cfg, used, w);
    if w.cancelled.None? && Route(cfg, used, w).Some? {
      var exit := Route(cfg, used, w).value;
      var (help, ended) := HelperPart(cfg, i, exit, w);
      HelperPartFacts(cfg, i, exit, w);
      HeadAndHelp(cfg, exit, w.cancelled, help);
      if ended.None? {
        var (chat, entry, flow) := ChatPart(cfg, i, exit, w);
        if w.reply.NotSent? {
          FailedSendFacts(cfg, i, exit, w);
        } else {
          RepliedFacts(cfg, i, exit, w);
        }
        Combined(cfg, exit, head + help, chat, flow);
      }
    } else {
      HeadAlone(cfg, w.cancelled);
    }
  }

  lemma HeadAlone(cfg: Config, reading: Option<ContextError>)
    ensures var head := [ReadContext(reading)];
            && (forall e | e in head :: !Foreign(cfg, e) && e == ReadContext(reading))
            && Sends(head) == []
            && AtMostOne(AFailureMark, head) && AtMostOne(AResinFailure, head) && AtMostOne(AResponse, head)
  {
  }

  lemma HeadAndHelp(cfg: Config, exit: Exit, reading: Option<ContextError>, help: seq<Effect>)
    requires reading.None? && Tame(cfg, exit, help) && Silent(help)
    requires AtMostOne(AFailureMark, help) && AtMostOne(AResinFailure, help)
    ensures var log := [ReadContext(reading)] + help;
            && Tame(cfg, exit, log) && Sends(log) == []
            && (forall e | e in log :: !Cancellation(e) && !e.Forward?)
            && AtMostOne(AFailureMark, log) && AtMostOne(AResinFailure, log) && AtMostOne(AResponse, log)
            && !Occurs(AResponse, log)
            && (Occurs(AResinFailure, log) ==> ResinFailure in help)
  {
    var head := [ReadContext(reading)];
    NoSends(head + help);
    OnceInBoth(AFailureMark, head, help);
    OnceInBoth(AResinFailure, head, help);
    OnceInBoth(AResponse, head, help);
  }

  lemma Combined(cfg: Config, exit: Exit, front: seq<Effect>, chat: seq<Effect>, flow: Flow)
    requires Tame(cfg, exit, front) && Tame(cfg, exit, chat)
    requires Sends(front) == [] && Sends(chat) == [exit]
    requires forall e | e in front :: !Cancellation(e) && !e.Forward? && !e.MarkFailure? && !e.ResinFailure?
    requires AtMostOne(AFailureMark, chat) && AtMostOne(AResinFailure, chat) && AtMostOne(AResponse, chat)
    requires StopsFor(chat, flow)
    ensures var log := front + chat;
            && Tame(cfg, exit, log) && Sends(log) == [exit] && StopsFor(log, flow)
            && AtMostOne(AFailureMark, log) && AtMostOne(AResinFailure, log) && AtMostOne(AResponse, log)
            && (Occurs(AResinFailure, log) <==> Occurs(AResinFailure, chat))
            && (Occurs(AResponse, log) <==> Occurs(AResponse, chat))
  {
    var log := front + chat;
    SendsConcat(front, chat);
    OnceInBoth(AFailureMark, front, chat);
    OnceInBoth(AResinFailure, front, chat);
    OnceInBoth(AResponse, front, chat);
    if flow.Stop? && flow.downstream.Some? {
      assert log[..|log| - 1] == front + chat[..|chat| - 1];
    }
  }

  // ------------------------------------------------------------------------------------
  // Whole runs.
  // ------------------------------------------------------------------------------------

  /** What follows a turn in `Run`. */
  function Rest(cfg: Config, i: nat, used: set<int>, worlds: seq<World>, retry: int, entries: seq<Entry>)
      : seq<Effect>
    requires Distinct(cfg.proxies) && i < Attempts(cfg) <= |worlds|
  {
    var step := Turn(cfg, i, used, worlds[i]);
    var retry' := if step.exit.Some? then i else retry;
    var entries' := entries + step.entries;
    match step.flow
    case Again => Run(cfg, i + 1, UsedAfter(used, step.exit), worlds, retry', entries')
    case Stop(downstream) => Terminal(downstream, retry', entries')
    case Served(status, ok, text) => [ServedRecord(status, ok, text, i, entries')]
  }

  lemma TurnThenRest(cfg: Config, i: nat, used: set<int>, worlds: seq<World>, retry: int, entries: seq<Entry>)
    requires Distinct(cfg.proxies) && i < Attempts(cfg) <= |worlds|
    ensures Run(cfg, i, used, worlds, retry, entries) ==
            Turn(cfg, i, used, worlds[i]).effects + Rest(cfg, i, used, worlds, retry, entries)
    ensures TurnFacts(cfg, i, used, Turn(cfg, i, used, worlds[i]))
  {
    hide Turn;
    TurnIsOk(cfg, i, used, worlds[i]);
  }

  /** A Resin run never touches the proxy pool, a pool run never touches Resin. */
  lemma {:induction false} RunStaysInItsEngine(
      cfg: Config, i: nat, used: set<int>, worlds: seq<World>, retry: int, entries: seq<Entry>)
    requires Distinct(cfg.proxies) && i <= Attempts(cfg) <= |worlds|
    ensures forall e | e in Run(cfg, i, used, worlds, retry, entries) :: !Foreign(cfg, e)
    decreases Attempts(cfg) - i
  {
    hide Turn;
    if i < Attempts(cfg) {
      TurnThenRest(cfg, i, used, worlds, retry, entries);
      var step := Turn(cfg, i, used, worlds[i]);
      if step.flow.Again? {
        RunStaysInItsEngine(cfg, i + 1, UsedAfter(used, step.exit), worlds,
                            if step.exit.Some? then i else retry, entries + step.entries);
      }
    }
  }

  ghost predicate ClosedOnce(log: seq<Effect>) {
    && AtMostOne(AResponse, log) && Occurs(AResponse, log)
    && AtMostOne(ARecord, log) && Occurs(ARecord, log)
    && AtMostOne(AResinFailure, log)
  }

  lemma TerminalClosesOnce(downstream: Option<ContextError>, retry: int, entries: seq<Entry>)
    ensures ClosedOnce(Terminal(downstream, retry, entries))
    ensures !Occurs(AResinFailure, Terminal(downstream, retry, entries))
    ensures Sends(Terminal(downstream, retry, entries)) == []
    ensures Failures(Terminal(downstream, retry, entries)) == []
  {
    var log := Terminal(downstream, retry, entries);
    assert log[0] in log && log[1] in log;
    NoSends(log);
    NoFailures(log);
  }

  /** A run ends with one response and one record, and records at most one gateway failure. */
  lemma {:induction false} RunClosesOnce(
      cfg: Config, i: nat, used: set<int>, worlds: seq<World>, retry: int, entries: seq<Entry>)
    requires Distinct(cfg.proxies) && i <= Attempts(cfg) <= |worlds|
    ensures ClosedOnce(Run(cfg, i, used, worlds, retry, entries))
    decreases Attempts(cfg) - i
  {
    hide Turn;
    if i == Attempts(cfg) {
      TerminalClosesOnce(None, retry, entries);
    } else {
      TurnThenRest(cfg, i, used, worlds, retry, entries);
      var step := Turn(cfg, i, used, worlds[i]);
      var retry' := if step.exit.Some? then i else retry;
      var rest := Rest(cfg, i, used, worlds, retry, entries);
      match step.flow {
        case Again =>
          RunClosesOnce(cfg, i + 1, UsedAfter(used, step.exit), worlds, retry', entries + step.entries);
        case Stop(downstream) =>
          TerminalClosesOnce(downstream, retry', entries + step.entries);
        case Served(_, _, _) =>
          assert rest[0] in rest;
      }
      OnceInBoth(AResponse, step.effects, rest);
      OnceInBoth(ARecord, step.effects, rest);
      OnceInBoth(AResinFailure, step.effects, rest);
    }
  }

  /** Different exits, all of them offered and outside `used`, and not more than `n`. */
  ghost predicate FreshExits(cfg: Config, used: set<int>, exits: seq<Exit>, n: int) {
    && |exits| <= n
    && (forall x | x in exits :: NewExit(cfg, used, x))
    && (cfg.engine.Builtin? ==> forall j, k | 0 <= j < k < |exits| :: exits[j] != exits[k])
  }

  ghost predicate FreshFailures(used: set<int>, ids: seq<int>) {
    && (forall id | id in ids :: id !in used)
    && (forall j, k | 0 <= j < k < |ids| :: ids[j] != ids[k])
  }

  lemma ExitsGrow(cfg: Config, used: set<int>, exit: Option<Exit>, first: seq<Exit>, rest: seq<Exit>, n: int)
    requires exit.Some? ==> NewExit(cfg, used, exit.value)
    requires |first| <= 1 && forall x | x in first :: exit == Some(x)
    requires FreshExits(cfg, UsedAfter(used, exit), rest, n)
    ensures FreshExits(cfg, used, first + rest, n + 1)
  {
    var all := first + rest;
    forall j, k | 0 <= j < k < |all| && cfg.engine.Builtin?
      ensures all[j] != all[k]
    {
      assert all[k] in rest;
      if j < |first| {
        assert all[j] in first;
      } else {
        assert all[j] == rest[j - |first|] && all[k] == rest[k - |first|];
      }
    }
  }

  lemma FailuresGrow(used: set<int>, exit: Option<Exit>, first: seq<int>, rest: seq<int>)
    requires exit.Some? && exit.value.PoolProxy? ==> exit.value.id !in used
    requires first == [] || (exit.Some? && exit.value.PoolProxy? && first == [exit.value.id])
    requires FreshFailures(UsedAfter(used, exit), rest)
    ensures FreshFailures(used, first + rest)
  {
    var all := first + rest;
    forall j, k | 0 <= j < k < |all|
      ensures all[j] != all[k]
    {
      assert all[k] in rest;
      if j >= |first| {
        assert all[j] == rest[j - |first|] && all[k] == rest[k - |first|];
      }
    }
  }

  lemma NothingTried(cfg: Config, used: set<int>, n: nat)
    ensures FreshExits(cfg, used, [], n) && FreshFailures(used, [])
  {
  }

  /** Every attempt of a pool run goes through another proxy, and no proxy is marked as failed
      twice; no run makes more attempts than it is allowed. */
  lemma {:induction false} RunTriesNewExits(
      cfg: Config, i: nat, used: set<int>, worlds: seq<World>, retry: int, entries: seq<Entry>)
    requires Distinct(cfg.proxies) && i <= Attempts(cfg) <= |worlds|
    ensures FreshExits(cfg, used, Sends(Run(cfg, i, used, worlds, retry, entries)), Attempts(cfg) - i)
    ensures FreshFailures(used, Failures(Run(cfg, i, used, worlds, retry, entries)))
    decreases Attempts(cfg) - i
  {
    hide Turn, ClosedOnce, Foreign, StopsFor, Answers, Justified;
    hide FreshExits, FreshFailures, Sends, Failures, Occurs, AtMostOne;
    NothingTried(cfg, used, 0);
    if i == Attempts(cfg) {
      TerminalClosesOnce(None, retry, entries);
    } else {
      TurnThenRest(cfg, i, used, worlds, retry, entries);
      var step := Turn(cfg, i, used, worlds[i]);
      var retry' := if step.exit.Some? then i else retry;
      var rest := Rest(cfg, i, used, worlds, retry, entries);
      match step.flow {
        case Again =>
          RunTriesNewExits(cfg, i + 1, UsedAfter(used, step.exit), worlds, retry', entries + step.entries);
        case Stop(downstream) =>
          TerminalClosesOnce(downstream, retry', entries + step.entries);
          NothingTried(cfg, UsedAfter(used, step.exit), Attempts(cfg) - i - 1);
        case Served(_, _, _) =>
          NothingTried(cfg, UsedAfter(used, step.exit), Attempts(cfg) - i - 1);
          NoSends(rest);
          NoFailures(rest);
      }
      SendsConcat(step.effects, rest);
      FailuresConcat(step.effects, rest);
      ExitsGrow(cfg, used, step.exit, Sends(step.effects), Sends(rest), Attempts(cfg) - i - 1);
      TurnFailures(cfg, i, used, step);
      FailuresGrow(used, step.exit, Failures(step.effects), Failures(rest));
    }
  }

  lemma TurnFailures(cfg: Config, i: nat, used: set<int>, s: Step)
    requires TurnFacts(cfg, i, used, s)
    ensures Failures(s.effects) == []
         || (s.exit.Some? && s.exit.value.PoolProxy? && Failures(s.effects) == [s.exit.value.id])
  {
    if s.exit.Some? {
      FailuresOf(s.exit.value, s.effects);
    } else {
      NoFailures(s.effects);
    }
  }

  /** The attempt entries so far: numbered upwards, each but possibly the last with a reason
      to go on; without the helper one per attempt. */
  ghost predicate Numbered(cfg: Config, entries: seq<Entry>, i: int, retry: int) {
    && (forall k | 0 <= k < |entries| :: 1 <= entries[k].attempt <= i)
    && (forall j, k | 0 <= j < k < |entries| :: entries[j].attempt < entries[k].attempt)
    && (!cfg.vision ==>
          && (forall k | 0 <= k < |entries| :: entries[k].attempt == k + 1)
          && (entries != [] ==> |entries| == retry + 1))
  }

  ghost predicate Reasoned(cfg: Config, entries: seq<Entry>) {
    forall k | 0 <= k < |entries| :: entries[k].failed || Justified(cfg, entries[k].status)
  }

  /** A record lists exactly the chat requests of the run, in order. */
  ghost predicate RecordOk(cfg: Config, r: Record, exits: seq<Exit>) {
    && Numbered(cfg, r.entries, Attempts(cfg), r.retry)
    && Exits(r.entries) == exits
    && (r.entries != [] ==> Reasoned(cfg, r.entries[..|r.entries| - 1]))
    && (r.text.Some? ==>
          && r.entries != [] && r.entries[|r.entries| - 1].status == r.status
          && r.entries[|r.entries| - 1].attempt == r.retry + 1
          && (AsksForAnother(r.status) ==> r.retry + 1 >= Attempts(cfg)))
  }

  /** The state in which attempt i begins. */
  ghost predicate Begun(cfg: Config, i: nat, retry: int, entries: seq<Entry>) {
    && Numbered(cfg, entries, i, retry) && Reasoned(cfg, entries)
    && (!cfg.vision ==> |entries| == i && (i > 0 ==> retry == i - 1))
  }

  /** What holds of the entries after a turn. */
  ghost predicate Ended(cfg: Config, i: nat, retry: int, entries: seq<Entry>) {
    && Numbered(cfg, entries, i + 1, retry)
    && (entries != [] ==> Reasoned(cfg, entries[..|entries| - 1]))
  }

  lemma EntriesGrow(cfg: Config, i: nat, retry: int, entries: seq<Entry>, s: Step)
    requires Begun(cfg, i, retry, entries) && TurnEntries(cfg, i, s)
    ensures Ended(cfg, i, if s.exit.Some? then i else retry, entries + s.entries)
    ensures s.flow.Again? ==> Begun(cfg, i + 1, if s.exit.Some? then i else retry, entries + s.entries)
    ensures Exits(entries + s.entries) == Exits(entries) + Sends(s.effects)
  {
    hide Sends, Justified, Begun, Ended;
    ExitsAppend(entries, s.entries);
    if s.entries != [] {
      assert s.entries == [s.entries[0]];
      OneMoreEntry(cfg, i, retry, entries, s.entries[0]);
    } else {
      assert entries + s.entries == entries;
      NoMoreEntry(cfg, i, retry, entries, if s.exit.Some? then i else retry);
    }
  }

  lemma ExitsAppend(left: seq<Entry>, right: seq<Entry>)
    ensures Exits(left + right) == Exits(left) + Exits(right)
  {
  }

  lemma OneMoreEntry(cfg: Config, i: nat, retry: int, entries: seq<Entry>, e: Entry)
    requires Begun(cfg, i, retry, entries) && e.attempt == i + 1
    ensures Ended(cfg, i, i, entries + [e])
    ensures e.failed || Justified(cfg, e.status) ==> Begun(cfg, i + 1, i, entries + [e])
  {
    hide Justified;
    var more := entries + [e];
    assert more[..|more| - 1] == entries;
  }

  lemma NoMoreEntry(cfg: Config, i: nat, retry: int, entries: seq<Entry>, retry': int)
    requires Begun(cfg, i, retry, entries)
    requires !cfg.vision ==> retry' == retry
    ensures Ended(cfg, i, retry', entries)
    ensures cfg.vision ==> Begun(cfg, i + 1, retry', entries)
  {
    hide Justified;
  }

  ghost predicate RecordsOk(cfg: Config, log: seq<Effect>, exits: seq<Exit>) {
    forall e | e in log && e.ChatRecord? :: RecordOk(cfg, e.record, exits)
  }

  lemma TerminalRecord(cfg: Config, i: nat, downstream: Option<ContextError>, retry: int, entries: seq<Entry>)
    requires Ended(cfg, i, retry, entries) && i < Attempts(cfg)
    ensures RecordsOk(cfg, Terminal(downstream, retry, entries), Exits(entries))
  {
    hide Numbered, AsksForAnother, Justified;
    NumberedFurther(cfg, entries, i + 1, Attempts(cfg), retry);
  }

  lemma ServedRecordOk(
      cfg: Config, i: nat, entries: seq<Entry>, last: Entry, status: int, ok: bool, text: string)
    requires Ended(cfg, i, i, entries + [last]) && i < Attempts(cfg)
    requires last.attempt == i + 1 && last.status == status
    requires AsksForAnother(status) ==> i + 1 >= Attempts(cfg)
    ensures RecordsOk(cfg, [ServedRecord(status, ok, text, i, entries + [last])], Exits(entries + [last]))
  {
    hide Reasoned, AsksForAnother, UsageOrigin;
    NumberedFurther(cfg, entries + [last], i + 1, Attempts(cfg), i);
    hide Numbered;
    var record := ServedRecord(status, ok, text, i, entries + [last]).record;
    assert (entries + [last])[|entries|] == last;
    assert RecordOk(cfg, record, Exits(entries + [last]));
  }

  lemma NumberedFurther(cfg: Config, entries: seq<Entry>, i: int, j: int, retry: int)
    requires Numbered(cfg, entries, i, retry) && i <= j
    ensures Numbered(cfg, entries, j, retry)
  {
  }

  /** Every record a run writes is sound, and lists what was sent before it and in it. */
  lemma {:induction false} RunRecords(
      cfg: Config, i: nat, used: set<int>, worlds: seq<World>, retry: int, entries: seq<Entry>)
    requires Distinct(cfg.proxies) && i <= Attempts(cfg) <= |worlds|
    requires Begun(cfg, i, retry, entries)
    ensures RecordsOk(cfg, Run(cfg, i, used, worlds, retry, entries),
                      Exits(entries) + Sends(Run(cfg, i, used, worlds, retry, entries)))
    decreases Attempts(cfg) - i
  {
    hide Turn, RecordsOk, Begun, Ended, AtMostOne, Occurs, Foreign, StopsFor, NewExit, Sends;
    if i == Attempts(cfg) {
      TerminalClosesOnce(None, retry, entries);
      assert Exits(entries) + [] == Exits(entries);
      LastRecord(cfg, retry, entries);
    } else {
      TurnThenRest(cfg, i, used, worlds, retry, entries);
      var step := Turn(cfg, i, used, worlds[i]);
      var retry' := if step.exit.Some? then i else retry;
      var entries' := entries + step.entries;
      var rest := Rest(cfg, i, used, worlds, retry, entries);
      EntriesGrow(cfg, i, retry, entries, step);
      match step.flow {
        case Again =>
          RunRecords(cfg, i + 1, UsedAfter(used, step.exit), worlds, retry', entries');
        case Stop(downstream) =>
          TerminalRecord(cfg, i, downstream, retry', entries');
          TerminalClosesOnce(downstream, retry', entries');
          assert Exits(entries') + [] == Exits(entries');
        case Served(status, ok, text) =>
          assert step.entries == [step.entries[0]];
          ServedRecordOk(cfg, i, entries, step.entries[0], status, ok, text);
          NoSends(rest);
          assert Exits(entries') + [] == Exits(entries');
      }
      RecordsCompose(cfg, step.effects, rest, Exits(entries), Exits(entries'));
    }
  }

  lemma RecordsCompose(cfg: Config, effects: seq<Effect>, rest: seq<Effect>,
                       before: seq<Exit>, after: seq<Exit>)
    requires forall e | e in effects :: !e.ChatRecord?
    requires after == before + Sends(effects) && RecordsOk(cfg, rest, after + Sends(rest))
    ensures RecordsOk(cfg, effects + rest, before + Sends(effects + rest))
  {
    hide RecordOk;
    SendsConcat(effects, rest);
    assert before + (Sends(effects) + Sends(rest)) == after + Sends(rest);
  }

  /** When the attempts run out after one that led on. */
  lemma LastRecord(cfg: Config, retry: int, entries: seq<Entry>)
    requires Begun(cfg, Attempts(cfg), retry, entries)
    ensures RecordsOk(cfg, Terminal(None, retry, entries), Exits(entries))
  {
    hide Justified;
  }

  function ClientStatus(e: ContextError): int {
    if e.DeadlineExceeded? then 504 else 499
  }

  /** Once the client's cancellation is read, nothing follows but the record and the reply. */
  ghost predicate CancelEndsIt(log: seq<Effect>) {
    forall k | 0 <= k < |log| && Cancellation(log[k]) ::
      && |log| == k + 3
      && log[k + 1].ChatRecord? && log[k + 1].record.status == ClientStatus(log[k].reading.value)
      && log[k + 2] == ErrorReply(ClientStatus(log[k].reading.value))
  }

  /** Whose fault every record says it was. Without a forwarded reply: external if the client's
      cancellation was read, internal if not. With one: external if the status or the error
      text says so, otherwise nobody's if it succeeded and the user's if not; no cancellation
      was read then. */
  ghost predicate OriginsExact(log: seq<Effect>) {
    forall e | e in log && e.ChatRecord? ::
      var r := e.record;
      var cancelled := exists c :: c in log && Cancellation(c);
      if r.text.None? then r.origin == if cancelled then External else Internal
      else !cancelled && r.origin == UsageOrigin(r.ok, r.status, r.text.value)
  }

  lemma {:induction false} RunStopsForTheClient(
      cfg: Config, i: nat, used: set<int>, worlds: seq<World>, retry: int, entries: seq<Entry>)
    requires Distinct(cfg.proxies) && i <= Attempts(cfg) <= |worlds|
    ensures CancelEndsIt(Run(cfg, i, used, worlds, retry, entries))
    ensures OriginsExact(Run(cfg, i, used, worlds, retry, entries))
    decreases Attempts(cfg) - i
  {
    hide Turn, CancelEndsIt, OriginsExact, AtMostOne, Occurs, Foreign, Sends, UsageOrigin, Answers;
    if i == Attempts(cfg) {
      PlainClosing(Terminal(None, retry, entries));
    } else {
      TurnThenRest(cfg, i, used, worlds, retry, entries);
      var step := Turn(cfg, i, used, worlds[i]);
      var retry' := if step.exit.Some? then i else retry;
      var rest := Rest(cfg, i, used, worlds, retry, entries);
      if step.flow.Again? {
        RunStopsForTheClient(cfg, i + 1, UsedAfter(used, step.exit), worlds, retry', entries + step.entries);
      }
      if step.flow.Stop? && step.flow.downstream.Some? {
        StoppedHere(step.effects, step.flow, retry', entries + step.entries);
      } else {
        if !step.flow.Again? {
          PlainClosing(rest);
        }
        NotStoppedHere(step.effects, rest);
      }
    }
  }

  lemma PlainClosing(log: seq<Effect>)
    requires forall e | e in log :: !Cancellation(e)
    requires forall e | e in log && e.ChatRecord? ::
               e.record.origin == if e.record.text.None? then Internal
                                  else UsageOrigin(e.record.ok, e.record.status, e.record.text.value)
    ensures CancelEndsIt(log) && OriginsExact(log)
  {
    hide UsageOrigin;
  }

  lemma StoppedHere(effects: seq<Effect>, flow: Flow, retry: int, entries: seq<Entry>)
    requires flow.Stop? && flow.downstream.Some? && StopsFor(effects, flow)
    requires forall e | e in effects :: !e.ChatRecord?
    ensures CancelEndsIt(effects + Terminal(flow.downstream, retry, entries))
    ensures OriginsExact(effects + Terminal(flow.downstream, retry, entries))
  {
    var end := Terminal(flow.downstream, retry, entries);
    var log := effects + end;
    var last := |effects| - 1;
    assert log[last] in log && Cancellation(log[last]);
    forall k | 0 <= k < last
      ensures !Cancellation(log[k])
    {
      assert effects[..last][k] in effects[..last];
    }
    assert log[last + 1] == end[0] && log[last + 2] == end[1];
  }

  lemma NotStoppedHere(effects: seq<Effect>, rest: seq<Effect>)
    requires forall e | e in effects :: !Cancellation(e) && !e.ChatRecord?
    requires CancelEndsIt(rest) && OriginsExact(rest)
    ensures CancelEndsIt(effects + rest) && OriginsExact(effects + rest)
  {
    var log := effects + rest;
    var n := |effects|;
    assert forall k | 0 <= k < n :: log[k] == effects[k] && effects[k] in effects;
    forall k | 0 <= k < |log| && Cancellation(log[k])
      ensures k >= n && Cancellation(rest[k - n]) && |log| == k + 3
      ensures log[k + 1] == rest[k - n + 1] && log[k + 2] == rest[k - n + 2]
    {
      assert log[k] == rest[k - n];
    }
    assert forall e | e in log :: e in effects || e in rest;
    assert forall e | e in rest :: e in log;
  }

  // ------------------------------------------------------------------------------------
  // The answer and the record.
  // ------------------------------------------------------------------------------------

  /** A forwarded reply and a record of the same run agree. */
  ghost predicate AnswersOnRecord(cfg: Config, log: seq<Effect>) {
    forall f, e | f in log && f.Forward? && e in log && e.ChatRecord? ::
      e.record.text.Some? && Answered(cfg, f.status, e.record.status, e.record.ok)
  }

  lemma {:induction false} RunAnswers(
      cfg: Config, i: nat, used: set<int>, worlds: seq<World>, retry: int, entries: seq<Entry>)
    requires Distinct(cfg.proxies) && i <= Attempts(cfg) <= |worlds|
    ensures AnswersOnRecord(cfg, Run(cfg, i, used, worlds, retry, entries))
    decreases Attempts(cfg) - i
  {
    hide Turn, AtMostOne, Foreign, Sends, StopsFor, NewExit, Answered, UsageOrigin;
    if i < Attempts(cfg) {
      TurnThenRest(cfg, i, used, worlds, retry, entries);
      var step := Turn(cfg, i, used, worlds[i]);
      if step.flow.Again? {
        RunAnswers(cfg, i + 1, UsedAfter(used, step.exit), worlds,
                   if step.exit.Some? then i else retry, entries + step.entries);
      }
    }
  }

  // ------------------------------------------------------------------------------------
  // The picker inside the loop.
  // ------------------------------------------------------------------------------------

  /** The proxies used before attempt k, if the run gets there. */
  function UsedAt(cfg: Config, worlds: seq<World>, k: nat): Option<set<int>>
    requires Distinct(cfg.proxies) && k <= |worlds|
  {
    if k == 0 then Some({})
    else
      match UsedAt(cfg, worlds, k - 1)
      case None => None
      case Some(used) =>
        var step := Turn(cfg, k - 1, used, worlds[k - 1]);
        if step.flow.Again? then Some(UsedAfter(used, step.exit)) else None
  }

  lemma {:induction false} UsedCountsAttempts(cfg: Config, worlds: seq<World>, k: nat)
    requires Distinct(cfg.proxies) && cfg.engine.Builtin? && k <= |worlds|
    ensures UsedAt(cfg, worlds, k).Some? ==> |UsedAt(cfg, worlds, k).value| == k
  {
    hide Turn;
    if k > 0 {
      UsedCountsAttempts(cfg, worlds, k - 1);
      if UsedAt(cfg, worlds, k - 1).Some? {
        TurnIsOk(cfg, k - 1, UsedAt(cfg, worlds, k - 1).value, worlds[k - 1]);
      }
    }
  }

  lemma {:induction false} Pigeonhole(proxies: seq<Proxy>, used: set<int>)
    requires Distinct(proxies) && |used| < |proxies|
    ensures exists p :: p in proxies && p.id !in used
  {
    if proxies[0].id in used {
      var rest := proxies[1..];
      Pigeonhole(rest, used - {proxies[0].id});
      var p :| p in rest && p.id !in used - {proxies[0].id};
      var k :| 0 <= k < |rest| && rest[k] == p;
      assert proxies[k + 1] == p && p in proxies;
    } else {
      assert proxies[0] in proxies;
    }
  }

  /** Whatever other requests do to the shared table, the picker has a proxy left in every
      attempt a pool run reaches. */
  lemma PickerNeverRunsDry(cfg: Config, worlds: seq<World>, k: nat)
    requires Distinct(cfg.proxies) && cfg.engine.Builtin? && k < Attempts(cfg) <= |worlds|
    requires UsedAt(cfg, worlds, k).Some?
    ensures !PickFrom(worlds[k].table, cfg.key, cfg.proxies, UsedAt(cfg, worlds, k).value,
                      cfg.limit, worlds[k].fault).0.Dry?
  {
    UsedCountsAttempts(cfg, worlds, k);
    Pigeonhole(cfg.proxies, UsedAt(cfg, worlds, k).value);
  }

  // ------------------------------------------------------------------------------------
  // The results, for every request.
  // ------------------------------------------------------------------------------------

  /** One response and one chat record per request, at most one gateway failure, and nothing
      of the engine that is not configured. */
  lemma EveryRequestIsAnsweredOnce(cfg: Config, worlds: seq<World>)
    requires Distinct(cfg.proxies) && Attempts(cfg) <= |worlds|
    ensures ClosedOnce(Request(cfg, worlds))
    ensures forall e | e in Request(cfg, worlds) :: !Foreign(cfg, e)
  {
    RunClosesOnce(cfg, 0, {}, worlds, 0, []);
    RunStaysInItsEngine(cfg, 0, {}, worlds, 0, []);
  }

  /** At most min(3, n) pool attempts or 10 Resin attempts; pool attempts use different
      proxies, all of them offered, and none is marked as failed twice. */
  lemma AttemptsAreBoundedAndDistinct(cfg: Config, worlds: seq<World>)
    requires Distinct(cfg.proxies) && Attempts(cfg) <= |worlds|
    ensures FreshExits(cfg, {}, Sends(Request(cfg, worlds)), Attempts(cfg))
    ensures FreshFailures({}, Failures(Request(cfg, worlds)))
  {
    RunTriesNewExits(cfg, 0, {}, worlds, 0, []);
  }

  /** The record numbers the attempts, lists what was sent, and shows why each retry happened;
      a retryable status is on record as forwarded only from the last attempt. */
  lemma RecordsTellTheRun(cfg: Config, worlds: seq<World>)
    requires Distinct(cfg.proxies) && Attempts(cfg) <= |worlds|
    ensures var log := Request(cfg, worlds);
            forall e | e in log && e.ChatRecord? :: RecordOk(cfg, e.record, Sends(log))
  {
    RunRecords(cfg, 0, {}, worlds, 0, []);
    assert Exits([]) + Sends(Request(cfg, worlds)) == Sends(Request(cfg, worlds));
  }

  /** What the client is answered is what is on record, but for a stream that could not be
      folded: that is a 502 to the client, from whichever attempt. */
  lemma AnswersMatchTheRecord(cfg: Config, worlds: seq<World>)
    requires Distinct(cfg.proxies) && Attempts(cfg) <= |worlds|
    ensures AnswersOnRecord(cfg, Request(cfg, worlds))
  {
    RunAnswers(cfg, 0, {}, worlds, 0, []);
  }

  /** Whose fault a run was, on record: exactly as the cancellation read, the status and the
      error text have it. And once a cancellation is read, nothing is sent, marked, cleared or
      rotated any more. */
  lemma OriginsAreExact(cfg: Config, worlds: seq<World>)
    requires Distinct(cfg.proxies) && Attempts(cfg) <= |worlds|
    ensures OriginsExact(Request(cfg, worlds))
    ensures CancelEndsIt(Request(cfg, worlds))
  {
    RunStopsForTheClient(cfg, 0, {}, worlds, 0, []);
  }

  /** In short: a run is recorded as external if and only if the client's cancellation was
      read, or a reply was forwarded whose status or error text puts it outside. */
  lemma ExternalIff(cfg: Config, worlds: seq<World>, e: Effect)
    requires Distinct(cfg.proxies) && Attempts(cfg) <= |worlds|
    requires e in Request(cfg, worlds) && e.ChatRecord?
    ensures e.record.origin.External? <==>
            || (exists c :: c in Request(cfg, worlds) && Cancellation(c))
            || (e.record.text.Some? && (Outside(e.record.status) || Marked(e.record.text.value)))
  {
    OriginsAreExact(cfg, worlds);
    hide Outside, Marked;
  }
}
