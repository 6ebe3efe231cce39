/** What a gateway run does, attempt by attempt, in terms of the statuses and errors it meets.
    The statuses are written out once more, so that nothing rests on how the loop groups them. */
module GatewayOutcomes {
  import opened SessionRouting
  import opened Gateway
  import opened GatewayLaws
  import opened Wrappers

  // ------------------------------------------------------------------------------------
  // What an attempt meets.
  // ------------------------------------------------------------------------------------

  function MaxAttempts(cfg: Config): nat {
    if cfg.engine.Resin? then 10 else if |cfg.proxies| < 3 then |cfg.proxies| else 3
  }

  predicate IsLast(cfg: Config, i: nat) {
    i + 1 >= MaxAttempts(cfg)
  }

  /** The images, if any, are described, and the chat request goes out. */
  predicate Helps(cfg: Config, w: World) {
    !cfg.vision || (w.help.Helped? && w.help.status < 300 && w.help.description.Replaced?)
  }

  predicate HelperLost(cfg: Config, w: World) {
    cfg.vision && cfg.visionUseProxy && w.help.HelpNotSent?
  }

  predicate HelperUnread(cfg: Config, w: World) {
    cfg.vision && cfg.visionUseProxy && w.help.HelpNotRead?
  }

  predicate HelperLimited(cfg: Config, w: World) {
    cfg.vision && cfg.visionUseProxy && w.help.Helped? && w.help.status == 429
  }

  /** The chat request could not be sent, and not because the client went away. */
  predicate Lost(cfg: Config, w: World) {
    Helps(cfg, w) && w.reply.NotSent? && w.afterSend.None?
  }

  predicate Replies(cfg: Config, w: World) {
    Helps(cfg, w) && w.reply.Replied?
  }

  predicate Rejects(w: World)
    requires w.reply.Replied?
  {
    w.reply.status == 403 && w.reply.rejected
  }

  /** The reply asks for another exit. */
  predicate AsksAgain(w: World)
    requires w.reply.Replied?
  {
    AsksForAnother(w.reply.status) || Rejects(w)
  }

  predicate CannotFold(cfg: Config, w: World)
    requires w.reply.Replied?
  {
    !cfg.stream && 200 <= w.reply.status < 300 && w.reply.collapseFails
  }

  predicate IsBroken(cfg: Config, w: World)
    requires w.reply.Replied?
  {
    w.reply.copyFails || CannotFold(cfg, w)
  }

  /** The reply is forwarded. */
  predicate Serves(cfg: Config, i: nat, w: World) {
    && Replies(cfg, w)
    && (AsksAgain(w) ==> IsLast(cfg, i))
    && (cfg.engine.Builtin? ==> w.reply.status != 407)
  }

  /** The loop goes on to the next attempt. */
  predicate Continues(cfg: Config, i: nat, w: World) {
    || (HelperLost(cfg, w) && cfg.engine.Builtin?)
    || HelperUnread(cfg, w)
    || (HelperLimited(cfg, w) && !IsLast(cfg, i))
    || (Lost(cfg, w) && (cfg.engine.Builtin? || !IsLast(cfg, i)))
    || (Replies(cfg, w) && cfg.engine.Builtin? && w.reply.status == 407)
    || (&& Replies(cfg, w) && AsksAgain(w) && !IsLast(cfg, i)
        && (cfg.engine.Builtin? ==> w.waiting.None?))
  }

  // ------------------------------------------------------------------------------------
  // What it does about it.
  // ------------------------------------------------------------------------------------

  /** The effects that attempt i through this exit has, and no others. */
  predicate Due(cfg: Config, i: nat, exit: Exit, w: World, e: Effect) {
    match e
    case HelperRecord(ok, attempt) =>
      cfg.vision && attempt == i && ok == Helps(cfg, w)
    case Sent(x) =>
      x == exit && Helps(cfg, w)
    case MarkFailure(id) =>
      && exit == PoolProxy(id)
      && (|| (HelperLost(cfg, w) && w.help.transport)
          || (HelperUnread(cfg, w) && w.help.transport)
          || (Lost(cfg, w) && w.reply.transport)
          || (Replies(cfg, w) && w.reply.status == 407))
    case MarkSuccess(id) =>
      && exit == PoolProxy(id) && Replies(cfg, w)
      && w.reply.status < 500 && w.reply.status != 407 && !Rejects(w)
    case ClearRoute(id) =>
      && exit == PoolProxy(id)
      && (|| HelperLost(cfg, w)
          || (HelperUnread(cfg, w) && w.help.transport)
          || (HelperLimited(cfg, w) && !IsLast(cfg, i))
          || Lost(cfg, w)
          || (&& Replies(cfg, w)
              && (|| w.reply.status == 401 || w.reply.status == 407 || w.reply.status == 429
                  || (Rejects(w) && !IsLast(cfg, i)))))
    case RotateAccount =>
      && exit.ResinAccount?
      && (|| (HelperLimited(cfg, w) && !IsLast(cfg, i))
          || Lost(cfg, w)
          || (Replies(cfg, w) && AsksAgain(w)))
    case ResinFailure =>
      exit.ResinAccount? && (HelperLost(cfg, w) || (Lost(cfg, w) && IsLast(cfg, i)))
    case ResinSuccess =>
      exit.ResinAccount? && Replies(cfg, w)
    case ObserveScore(account, status, failed) =>
      && cfg.scoring && exit == ResinAccount(account)
      && (|| (Helps(cfg, w) && w.reply.NotSent? && status == 0 && failed)
          || (Replies(cfg, w) && AsksAgain(w) && status == w.reply.status && !failed)
          || (Serves(cfg, i, w) && status == w.reply.status && failed == IsBroken(cfg, w)))
    case Forward(status) =>
      Serves(cfg, i, w) && status == if CannotFold(cfg, w) then 502 else w.reply.status
    case _ => false
  }

  /** Everything but reading the client's context, which is no doing of the run's, and the
      closing record and error reply, which belong to no attempt. */
  predicate IsDeed(e: Effect) {
    !e.ReadContext? && !e.ChatRecord? && !e.ErrorReply?
  }

  lemma HelperDoes(cfg: Config, i: nat, exit: Exit, w: World, e: Effect)
    requires (cfg.engine.Builtin? <==> exit.PoolProxy?) && IsDeed(e)
    ensures var (help, ended) := HelperPart(cfg, i, exit, w);
            && (ended.None? <==> Helps(cfg, w))
            && (e in help ==> Due(cfg, i, exit, w, e))
            && (Due(cfg, i, exit, w, e) && (e.HelperRecord? || !Helps(cfg, w)) ==> e in help)
            && (ended.Some? ==> !ended.value.Served? && (ended.value.Again? <==> Continues(cfg, i, w)))
  {
  }

  lemma LostDoes(cfg: Config, i: nat, exit: Exit, w: World, e: Effect)
    requires (cfg.engine.Builtin? <==> exit.PoolProxy?) && IsDeed(e)
    requires Helps(cfg, w) && w.reply.NotSent?
    ensures var (chat, _, flow) := ChatPart(cfg, i, exit, w);
            && (e in chat <==> Due(cfg, i, exit, w, e) && !e.HelperRecord?)
            && !flow.Served? && (flow.Again? <==> Continues(cfg, i, w))
  {
  }

  lemma PoolReplyDoes(cfg: Config, i: nat, exit: Exit, w: World, e: Effect)
    requires cfg.engine.Builtin? && exit.PoolProxy? && IsDeed(e)
    requires Helps(cfg, w) && w.reply.Replied?
    ensures var (chat, _, flow) := ChatPart(cfg, i, exit, w);
            && (e in chat <==> Due(cfg, i, exit, w, e) && !e.HelperRecord?)
            && (flow.Served? <==> Serves(cfg, i, w)) && (flow.Again? <==> Continues(cfg, i, w))
  {
  }

  lemma ResinReplyDoes(cfg: Config, i: nat, exit: Exit, w: World, e: Effect)
    requires cfg.engine.Resin? && exit.ResinAccount? && IsDeed(e)
    requires Helps(cfg, w) && w.reply.Replied?
    ensures var (chat, _, flow) := ChatPart(cfg, i, exit, w);
            && (e in chat <==> Due(cfg, i, exit, w, e) && !e.HelperRecord?)
            && (flow.Served? <==> Serves(cfg, i, w)) && (flow.Again? <==> Continues(cfg, i, w))
  {
  }

  /** One turn does exactly what is due, and goes where it should. */
  lemma TurnDoes(cfg: Config, i: nat, used: set<int>, w: World, e: Effect)
    requires Distinct(cfg.proxies) && IsDeed(e)
    ensures var step := Turn(cfg, i, used, w);
            var taken := w.cancelled.None? && Route(cfg, used, w).Some?;
            && step.exit == (if w.cancelled.None? then Route(cfg, used, w) else None)
            && (e in step.effects <==> taken && Due(cfg, i, step.exit.value, w, e))
            && (step.flow.Again? <==> taken && Continues(cfg, i, w))
            && (step.flow.Served? <==> taken && Serves(cfg, i, w))
  {
    hide HelperPart, ChatPart, Route, Due, Continues, Serves, Helps;
    if w.cancelled.None? && Route(cfg, used, w).Some? {
      var exit := Route(cfg, used, w).value;
      RouteIsNew(cfg, used, w);
      HelperDoes(cfg, i, exit, w, e);
      OneOfThem(cfg, i, exit, w, e);
      var help := HelperPart(cfg, i, exit, w).0;
      if Helps(cfg, w) {
        ChatDoes(cfg, i, exit, w, e);
        assert Turn(cfg, i, used, w).effects == [ReadContext(w.cancelled)] + help + ChatPart(cfg, i, exit, w).0;
      } else {
        assert Turn(cfg, i, used, w).effects == [ReadContext(w.cancelled)] + help;
      }
    }
  }

  lemma OneOfThem(cfg: Config, i: nat, exit: Exit, w: World, e: Effect)
    ensures Serves(cfg, i, w) || (Due(cfg, i, exit, w, e) && e.Sent?) ==> Helps(cfg, w)
  {
  }

  lemma ChatDoes(cfg: Config, i: nat, exit: Exit, w: World, e: Effect)
    requires (cfg.engine.Builtin? <==> exit.PoolProxy?) && IsDeed(e) && Helps(cfg, w)
    ensures var (chat, _, flow) := ChatPart(cfg, i, exit, w);
            && (e in chat <==> Due(cfg, i, exit, w, e) && !e.HelperRecord?)
            && (flow.Served? <==> Serves(cfg, i, w)) && (flow.Again? <==> Continues(cfg, i, w))
  {
    hide ChatPart, Due, Continues, Helps;
    if w.reply.NotSent? {
      LostDoes(cfg, i, exit, w, e);
    } else if cfg.engine.Builtin? {
      PoolReplyDoes(cfg, i, exit, w, e);
    } else {
      ResinReplyDoes(cfg, i, exit, w, e);
    }
  }

  // ------------------------------------------------------------------------------------
  // Over a whole run.
  // ------------------------------------------------------------------------------------

  /** Where an attempt goes: to the account the session has, or to the proxy picked for it. */
  predicate LeadsTo(cfg: Config, used: set<int>, w: World, exit: Exit)
    requires Distinct(cfg.proxies)
  {
    match exit
    case ResinAccount(account) => cfg.engine.Resin? && w.account == Some(account)
    case PoolProxy(id) =>
      && cfg.engine.Builtin?
      && var pick := PickFrom(w.table, cfg.key, cfg.proxies, used, cfg.limit, w.fault).0;
         pick.Chosen? && pick.proxy.id == id
  }

  lemma RouteLeads(cfg: Config, used: set<int>, w: World, exit: Exit)
    requires Distinct(cfg.proxies)
    ensures Route(cfg, used, w) == Some(exit) <==> LeadsTo(cfg, used, w, exit)
  {
    hide PickFrom, Distinct;
  }

  /** The run makes attempt k, and makes it through this exit. */
  ghost predicate Through(cfg: Config, worlds: seq<World>, k: nat, exit: Exit)
    requires Distinct(cfg.proxies)
  {
    && k < |worlds| && k < MaxAttempts(cfg)
    && UsedAt(cfg, worlds, k).Some? && worlds[k].cancelled.None?
    && LeadsTo(cfg, UsedAt(cfg, worlds, k).value, worlds[k], exit)
  }

  lemma ThroughItsRoute(cfg: Config, worlds: seq<World>, k: nat)
    requires Distinct(cfg.proxies) && k < |worlds| && UsedAt(cfg, worlds, k).Some?
    ensures forall exit :: Through(cfg, worlds, k, exit) <==>
              && k < MaxAttempts(cfg) && worlds[k].cancelled.None?
              && Route(cfg, UsedAt(cfg, worlds, k).value, worlds[k]) == Some(exit)
  {
    hide Route, LeadsTo, UsedAt;
    forall exit
      ensures Through(cfg, worlds, k, exit) <==>
                && k < MaxAttempts(cfg) && worlds[k].cancelled.None?
                && Route(cfg, UsedAt(cfg, worlds, k).value, worlds[k]) == Some(exit)
    {
      RouteLeads(cfg, UsedAt(cfg, worlds, k).value, worlds[k], exit);
    }
  }

  /** A run comes to its next attempt exactly when the last one was made and goes on, and then
      the proxies tried are those of the attempts made. */
  lemma ComesToTheNext(cfg: Config, worlds: seq<World>, k: nat)
    requires Distinct(cfg.proxies) && k < MaxAttempts(cfg) && k < |worlds|
    ensures UsedAt(cfg, worlds, 0) == Some({})
    ensures UsedAt(cfg, worlds, k + 1).Some? <==>
            (exists exit :: Through(cfg, worlds, k, exit)) && Continues(cfg, k, worlds[k])
    ensures forall exit | Through(cfg, worlds, k, exit) && UsedAt(cfg, worlds, k + 1).Some? ::
              UsedAt(cfg, worlds, k + 1).value ==
                UsedAt(cfg, worlds, k).value + (if exit.PoolProxy? then {exit.id} else {})
  {
    hide Turn, Route, LeadsTo, Continues, Due;
    if UsedAt(cfg, worlds, k).Some? {
      var used := UsedAt(cfg, worlds, k).value;
      ThroughItsRoute(cfg, worlds, k);
      TurnDoes(cfg, k, used, worlds[k], RotateAccount);
      if worlds[k].cancelled.None? && Route(cfg, used, worlds[k]).Some? {
        assert Through(cfg, worlds, k, Route(cfg, used, worlds[k]).value);
      }
    }
  }

  lemma {:induction false} NoneAfterTheLast(cfg: Config, worlds: seq<World>, i: nat, k: nat)
    requires Distinct(cfg.proxies) && i <= k <= |worlds| && UsedAt(cfg, worlds, i).None?
    ensures UsedAt(cfg, worlds, k).None?
    decreases k
  {
    hide Turn;
    if i < k {
      NoneAfterTheLast(cfg, worlds, i, k - 1);
    }
  }

  /** Some attempt from i on has this effect. */
  ghost predicate DueFrom(cfg: Config, worlds: seq<World>, i: nat, e: Effect)
    requires Distinct(cfg.proxies)
  {
    exists k: nat, exit :: i <= k && Through(cfg, worlds, k, exit) && Due(cfg, k, exit, worlds[k], e)
  }

  lemma DueHereOrLater(cfg: Config, worlds: seq<World>, i: nat, e: Effect)
    requires Distinct(cfg.proxies)
    ensures DueFrom(cfg, worlds, i, e) <==>
            || (exists exit :: Through(cfg, worlds, i, exit) && Due(cfg, i, exit, worlds[i], e))
            || DueFrom(cfg, worlds, i + 1, e)
  {
    hide Due, Through;
  }

  lemma DoneByThen(cfg: Config, worlds: seq<World>, i: nat, e: Effect)
    requires Distinct(cfg.proxies) && i <= |worlds|
    requires i >= MaxAttempts(cfg) || UsedAt(cfg, worlds, i).None?
    ensures !DueFrom(cfg, worlds, i, e)
  {
    hide Due, Route, LeadsTo, Turn, UsedAt;
    forall k: nat, exit | i <= k && k < MaxAttempts(cfg) && Through(cfg, worlds, k, exit)
      ensures false
    {
      NoneAfterTheLast(cfg, worlds, i, k);
    }
  }

  lemma {:induction false} RunDoesWhatIsDue(cfg: Config, i: nat, used: set<int>, worlds: seq<World>,
                                            retry: int, entries: seq<Entry>, e: Effect)
    requires Distinct(cfg.proxies) && i <= Attempts(cfg) <= |worlds| && IsDeed(e)
    requires i < Attempts(cfg) ==> UsedAt(cfg, worlds, i) == Some(used)
    ensures e in Run(cfg, i, used, worlds, retry, entries) <==> DueFrom(cfg, worlds, i, e)
    decreases Attempts(cfg) - i
  {
    hide Turn, Due, Continues, DueFrom, Route, LeadsTo;
    if i == Attempts(cfg) {
      DoneByThen(cfg, worlds, i, e);
    } else {
      DueHereOrLater(cfg, worlds, i, e);
      ThroughItsRoute(cfg, worlds, i);
      TurnDoes(cfg, i, used, worlds[i], e);
      TurnThenRest(cfg, i, used, worlds, retry, entries);
      var step := Turn(cfg, i, used, worlds[i]);
      var rest := Rest(cfg, i, used, worlds, retry, entries);
      assert e in Run(cfg, i, used, worlds, retry, entries) <==> e in step.effects || e in rest;
      assert step.exit.Some? ==> Through(cfg, worlds, i, step.exit.value);
      if step.flow.Again? {
        RunDoesWhatIsDue(cfg, i + 1, UsedAfter(used, step.exit), worlds,
                         if step.exit.Some? then i else retry, entries + step.entries, e);
      } else {
        DoneByThen(cfg, worlds, i + 1, e);
      }
    }
  }

  /** Everything a request does, attempt by attempt: an effect is in the log exactly when some
      attempt the run makes is due to have it. */
  lemma WhatARunDoes(cfg: Config, worlds: seq<World>, e: Effect)
    requires Distinct(cfg.proxies) && Attempts(cfg) <= |worlds| && IsDeed(e)
    ensures e in Request(cfg, worlds) <==>
            exists k: nat, exit :: Through(cfg, worlds, k, exit) && Due(cfg, k, exit, worlds[k], e)
  {
    hide Due, Through;
    RunDoesWhatIsDue(cfg, 0, {}, worlds, 0, [], e);
  }

  /** A pool proxy is marked as failed exactly when an attempt through it met a transport error
      that the client's leaving does not explain, in the chat request or in the helper request
      sent the same way, or a demand for credentials. */
  lemma FailureMarksExactly(cfg: Config, worlds: seq<World>, id: int)
    requires Distinct(cfg.proxies) && Attempts(cfg) <= |worlds|
    ensures MarkFailure(id) in Request(cfg, worlds) <==>
            exists k: nat ::
              && Through(cfg, worlds, k, PoolProxy(id))
              && (|| (Helps(cfg, worlds[k]) && worlds[k].reply == NotSent(true) && worlds[k].afterSend.None?)
                  || (Replies(cfg, worlds[k]) && worlds[k].reply.status == 407)
                  || (&& cfg.vision && cfg.visionUseProxy
                      && (worlds[k].help == HelpNotSent(true) || worlds[k].help == HelpNotRead(true))))
  {
    hide Through, Helps, IsLast, Serves;
    WhatARunDoes(cfg, worlds, MarkFailure(id));
  }

  /** And as healthy exactly when an attempt through it got a reply below 500 that is neither
      a demand for credentials nor a rejection. */
  lemma SuccessMarksExactly(cfg: Config, worlds: seq<World>, id: int)
    requires Distinct(cfg.proxies) && Attempts(cfg) <= |worlds|
    ensures MarkSuccess(id) in Request(cfg, worlds) <==>
            exists k: nat ::
              && Through(cfg, worlds, k, PoolProxy(id)) && Replies(cfg, worlds[k])
              && worlds[k].reply.status < 500 && worlds[k].reply.status != 407
              && !(worlds[k].reply.status == 403 && worlds[k].reply.rejected)
  {
    hide Through, Helps, IsLast, Serves;
    WhatARunDoes(cfg, worlds, MarkSuccess(id));
  }

  // ------------------------------------------------------------------------------------
  // The order of a turn.
  // ------------------------------------------------------------------------------------

  /** The helper is on record before the chat request is sent, and the request is sent before
      anything else is done; after a forwarded reply there is only its score; and once the
      context is read again nothing is forwarded. */
  ghost predicate InOrder(log: seq<Effect>) {
    forall j, k | 0 <= j < k < |log| ::
      && (log[k].HelperRecord? ==> log[j].ReadContext?)
      && (log[k].Sent? ==> !log[j].Sent? && (j == 0 || log[j].HelperRecord?))
      && (log[j].Forward? ==> log[k].ObserveScore?)
      && (log[j].ReadContext? && j > 0 ==> !log[k].Forward?)
  }

  lemma HelperInOrder(cfg: Config, i: nat, exit: Exit, w: World)
    requires cfg.engine.Builtin? <==> exit.PoolProxy?
    ensures var (help, ended) := HelperPart(cfg, i, exit, w);
            && (ended.None? ==> |help| <= 1)
            && forall k | 0 <= k < |help| ::
                 (help[k].HelperRecord? <==> k == 0)
                 && !help[k].Sent? && !help[k].Forward? && !help[k].ReadContext?
  {
  }

  lemma LostInOrder(cfg: Config, i: nat, exit: Exit, w: World)
    requires (cfg.engine.Builtin? <==> exit.PoolProxy?) && w.reply.NotSent?
    ensures var chat := ChatPart(cfg, i, exit, w).0;
            && chat[0] == Sent(exit)
            && forall k | 0 < k < |chat| :: !chat[k].HelperRecord? && !chat[k].Sent? && !chat[k].Forward?
  {
  }

  lemma PoolReplyInOrder(cfg: Config, i: nat, id: int, w: World)
    requires w.reply.Replied?
    ensures var rest := PoolReplyPart(cfg, i, id, w).0;
            forall k | 0 <= k < |rest| ::
              && !rest[k].HelperRecord? && !rest[k].Sent?
              && (rest[k].Forward? || rest[k].ReadContext? ==> k == |rest| - 1)
  {
  }

  lemma ResinReplyInOrder(cfg: Config, i: nat, account: string, w: World)
    requires w.reply.Replied?
    ensures var rest := ResinReplyPart(cfg, i, account, w).0;
            && (forall k | 0 <= k < |rest| ::
                  !rest[k].HelperRecord? && !rest[k].Sent? && !rest[k].ReadContext?)
            && (forall j, k | 0 <= j < k < |rest| && rest[j].Forward? :: rest[k].ObserveScore?)
  {
  }

  lemma ChatInOrder(cfg: Config, i: nat, exit: Exit, w: World)
    requires cfg.engine.Builtin? <==> exit.PoolProxy?
    ensures var chat := ChatPart(cfg, i, exit, w).0;
            && chat != [] && chat[0].Sent?
            && (forall k | 0 < k < |chat| :: !chat[k].HelperRecord? && !chat[k].Sent?)
            && forall j, k | 0 <= j < k < |chat| ::
                 (chat[j].Forward? ==> chat[k].ObserveScore?) && (chat[j].ReadContext? ==> !chat[k].Forward?)
  {
    hide PoolReplyPart, ResinReplyPart;
    if w.reply.NotSent? {
      LostInOrder(cfg, i, exit, w);
    } else {
      var rest := if exit.PoolProxy? then PoolReplyPart(cfg, i, exit.id, w).0
                  else ResinReplyPart(cfg, i, exit.account, w).0;
      if exit.PoolProxy? {
        PoolReplyInOrder(cfg, i, exit.id, w);
      } else {
        ResinReplyInOrder(cfg, i, exit.account, w);
      }
      var chat := ChatPart(cfg, i, exit, w).0;
      assert chat == [Sent(exit)] + rest;
      forall j, k | 0 <= j < k < |chat|
        ensures (chat[j].Forward? ==> chat[k].ObserveScore?) && (chat[j].ReadContext? ==> !chat[k].Forward?)
      {
        assert chat[k] == rest[k - 1] && (j > 0 ==> chat[j] == rest[j - 1]);
      }
    }
  }

  lemma FrontThenChat(reading: Option<ContextError>, help: seq<Effect>, chat: seq<Effect>)
    requires forall k | 0 <= k < |help| ::
               (help[k].HelperRecord? <==> k == 0)
               && !help[k].Sent? && !help[k].Forward? && !help[k].ReadContext?
    requires chat != [] ==> |help| <= 1 && chat[0].Sent?
    requires forall k | 0 < k < |chat| :: !chat[k].HelperRecord? && !chat[k].Sent?
    requires forall j, k | 0 <= j < k < |chat| ::
               (chat[j].Forward? ==> chat[k].ObserveScore?) && (chat[j].ReadContext? ==> !chat[k].Forward?)
    ensures InOrder([ReadContext(reading)] + help + chat)
  {
    var log := [ReadContext(reading)] + help + chat;
    var n := 1 + |help|;
    assert forall k | 1 <= k < n :: log[k] == help[k - 1];
    assert forall k | n <= k < |log| :: log[k] == chat[k - n];
  }

  /** Every turn has its effects in this order. */
  lemma TurnInOrder(cfg: Config, i: nat, used: set<int>, w: World)
    requires Distinct(cfg.proxies)
    ensures InOrder(Turn(cfg, i, used, w).effects)
  {
    hide Route, HelperPart, ChatPart, InOrder;
    RouteIsNew(cfg, used, w);
    FrontThenChat(w.cancelled, [], []);
    if w.cancelled.None? && Route(cfg, used, w).Some? {
      var exit := Route(cfg, used, w).value;
      HelperInOrder(cfg, i, exit, w);
      var help := HelperPart(cfg, i, exit, w).0;
      FrontThenChat(w.cancelled, help, []);
      ChatInOrder(cfg, i, exit, w);
      if HelperPart(cfg, i, exit, w).1.None? {
        FrontThenChat(w.cancelled, help, ChatPart(cfg, i, exit, w).0);
      } else {
        assert Turn(cfg, i, used, w).effects == [ReadContext(w.cancelled)] + help + [];
      }
    } else {
      assert Turn(cfg, i, used, w).effects == [ReadContext(w.cancelled)] + [] + [];
    }
  }

  /** Nothing is done twice, but a reply may be scored twice. */
  ghost predicate EachOnce(log: seq<Effect>) {
    && (forall j, k | 0 <= j < k < |log| && log[j] == log[k] :: log[j].ObserveScore? || log[j].ReadContext?)
    && (forall i, j, k | 0 <= i < j < k < |log| ::
          !(log[i].ObserveScore? && log[j].ObserveScore? && log[k].ObserveScore?))
  }

  /** Of the kinds that both parts of a turn can have, none is in the first if it goes on. */
  lemma HelperOnce(cfg: Config, i: nat, exit: Exit, w: World)
    requires cfg.engine.Builtin? <==> exit.PoolProxy?
    ensures var (help, ended) := HelperPart(cfg, i, exit, w);
            && EachOnce(help) && (forall e | e in help :: !e.ObserveScore? && !e.ReadContext?)
            && (ended.None? ==> forall e | e in help :: e.HelperRecord?)
  {
  }

  lemma PoolReplyOnce(cfg: Config, i: nat, id: int, w: World)
    requires w.reply.Replied?
    ensures var rest := PoolReplyPart(cfg, i, id, w).0;
            EachOnce(rest) && forall e | e in rest :: !e.HelperRecord? && !e.Sent?
  {
  }

  lemma ResinReplyOnce(cfg: Config, i: nat, account: string, w: World)
    requires w.reply.Replied?
    ensures var rest := ResinReplyPart(cfg, i, account, w).0;
            EachOnce(rest) && forall e | e in rest :: !e.HelperRecord? && !e.Sent?
  {
    hide CopyFails, Answer, ServedWith, Retryable, Disqualified, Attempts;
  }

  lemma LostOnce(cfg: Config, i: nat, exit: Exit, w: World)
    requires (cfg.engine.Builtin? <==> exit.PoolProxy?) && w.reply.NotSent?
    ensures var chat := ChatPart(cfg, i, exit, w).0;
            EachOnce(chat) && forall e | e in chat :: !e.HelperRecord?
  {
  }

  lemma OnceTogether(front: seq<Effect>, rest: seq<Effect>)
    requires EachOnce(front) && EachOnce(rest)
    requires forall e | e in front :: !e.ObserveScore?
    requires forall e | e in front && e in rest :: e.ReadContext?
    ensures EachOnce(front + rest)
  {
    var log := front + rest;
    assert forall k | 0 <= k < |front| :: log[k] == front[k] && front[k] in front;
    assert forall k | |front| <= k < |log| :: log[k] == rest[k - |front|] && rest[k - |front|] in rest;
  }

  /** No turn marks, clears, rotates, forwards or sends anything twice. */
  lemma TurnDoesEachOnce(cfg: Config, i: nat, used: set<int>, w: World)
    requires Distinct(cfg.proxies)
    ensures EachOnce(Turn(cfg, i, used, w).effects)
  {
    hide Route, HelperPart, ChatPart, EachOnce;
    RouteIsNew(cfg, used, w);
    var head := [ReadContext(w.cancelled)];
    OneIsOnce(head[0]);
    if w.cancelled.None? && Route(cfg, used, w).Some? {
      var exit := Route(cfg, used, w).value;
      HelperOnce(cfg, i, exit, w);
      var help := HelperPart(cfg, i, exit, w).0;
      OnceTogether(head, help);
      if HelperPart(cfg, i, exit, w).1.None? {
        ChatOnce(cfg, i, exit, w);
        OnceTogether(head + help, ChatPart(cfg, i, exit, w).0);
      }
    }
  }

  lemma OneIsOnce(e: Effect)
    ensures EachOnce([e])
  {
  }

  lemma ChatOnce(cfg: Config, i: nat, exit: Exit, w: World)
    requires cfg.engine.Builtin? <==> exit.PoolProxy?
    ensures var chat := ChatPart(cfg, i, exit, w).0;
            EachOnce(chat) && forall e | e in chat :: !e.HelperRecord?
  {
    hide PoolReplyPart, ResinReplyPart, EachOnce;
    if w.reply.NotSent? {
      LostOnce(cfg, i, exit, w);
    } else {
      OneIsOnce(Sent(exit));
      if exit.PoolProxy? {
        PoolReplyOnce(cfg, i, exit.id, w);
        OnceTogether([Sent(exit)], PoolReplyPart(cfg, i, exit.id, w).0);
      } else {
        ResinReplyOnce(cfg, i, exit.account, w);
        OnceTogether([Sent(exit)], ResinReplyPart(cfg, i, exit.account, w).0);
      }
    }
  }

  // ------------------------------------------------------------------------------------
  // The record.
  // ------------------------------------------------------------------------------------

  ghost predicate Contains(text: string, marker: string) {
    exists a, b :: text == a + marker + b
  }

  /** The failure of a forwarded reply is nobody's here: by its status or by its text. */
  ghost predicate FromOutside(status: int, text: string) {
    || status == 0 || status == 451 || status == 499 || status >= 500
    || Contains(text, "context canceled") || Contains(text, "context deadline exceeded")
    || Contains(text, "unexpected eof") || Contains(text, "proxyconnect")
    || Contains(text, "not enough bandwidth") || Contains(text, "could not locate image content")
    || Contains(text, "vision helper") || Contains(text, "error from provider")
    || Contains(text, "upstream request failed") || Contains(text, "all proxies failed")
  }

  lemma MentionsContains(text: string, marker: string)
    ensures Mentions(text, marker) <==> Contains(text, marker)
  {
    if Mentions(text, marker) {
      var i :| 0 <= i <= |text| && marker <= text[i..];
      assert text == text[..i] + marker + text[i + |marker|..];
    }
    if Contains(text, marker) {
      var a, b :| text == a + marker + b;
      assert text[|a|..] == marker + b;
    }
  }

  lemma OriginIsFromOutside(ok: bool, status: int, text: string)
    ensures UsageOrigin(ok, status, text) ==
            if FromOutside(status, text) then External else if ok then NoOrigin else User
  {
    hide Mentions, Contains;
    forall m
      ensures Mentions(text, m) <==> Contains(text, m)
    {
      MentionsContains(text, m);
    }
    assert MARKERS[0] == "context canceled" && MARKERS[1] == "context deadline exceeded";
    assert MARKERS[2] == "unexpected eof" && MARKERS[3] == "proxyconnect";
    assert MARKERS[4] == "not enough bandwidth" && MARKERS[5] == "could not locate image content";
    assert MARKERS[6] == "vision helper" && MARKERS[7] == "error from provider";
    assert MARKERS[8] == "upstream request failed" && MARKERS[9] == "all proxies failed";
  }

  /** The record of an attempt that serves the request. */
  ghost function RecordOf(cfg: Config, k: nat, w: World, entries: seq<Entry>): Record
    requires w.reply.Replied?
  {
    var ok := w.reply.status < 400 && !IsBroken(cfg, w);
    var text := if ok then "" else w.reply.message;
    Record(ok, w.reply.status, k, entries,
           if FromOutside(w.reply.status, text) then External else if ok then NoOrigin else User,
           Some(text))
  }

  /** The client is found to be gone in this attempt: before it, after a request that could not
      be sent, or while the pool waits before the next one. */
  function Hangup(cfg: Config, i: nat, routed: bool, w: World): Option<ContextError> {
    if w.cancelled.Some? then w.cancelled
    else if routed && Helps(cfg, w) && w.reply.NotSent? then w.afterSend
    else if routed && cfg.engine.Builtin? && Replies(cfg, w) && AsksAgain(w) && !IsLast(cfg, i) then w.waiting
    else None
  }

  /** What an attempt adds to the list of requests sent. */
  function EntryOf(cfg: Config, i: nat, exit: Exit, w: World): Entry {
    if w.reply.NotSent? then Entry(i + 1, exit, 0, true)
    else Entry(i + 1, exit, w.reply.status, Serves(cfg, i, w) && IsBroken(cfg, w))
  }

  lemma ChatNotes(cfg: Config, i: nat, exit: Exit, w: World)
    requires (cfg.engine.Builtin? <==> exit.PoolProxy?) && Helps(cfg, w)
    ensures var (_, entry, flow) := ChatPart(cfg, i, exit, w);
            && entry == EntryOf(cfg, i, exit, w)
            && (flow.Stop? ==> w.cancelled.None? ==> flow.downstream == Hangup(cfg, i, true, w))
            && (!flow.Stop? ==> w.cancelled.None? ==> Hangup(cfg, i, true, w).None?)
            && (flow.Served? ==>
                  && w.reply.Replied?
                  && ServedRecord(flow.status, flow.ok, flow.text, i, []) == ChatRecord(RecordOf(cfg, i, w, [])))
  {
    hide FromOutside, UsageOrigin;
    if w.reply.Replied? {
      var r := RecordOf(cfg, i, w, []);
      OriginIsFromOutside(r.ok, r.status, r.text.value);
    }
  }

  lemma TurnNotes(cfg: Config, i: nat, used: set<int>, w: World)
    requires Distinct(cfg.proxies)
    ensures var step := Turn(cfg, i, used, w);
            var routed := w.cancelled.None? && Route(cfg, used, w).Some?;
            && step.entries == (if routed && Helps(cfg, w) then [EntryOf(cfg, i, step.exit.value, w)] else [])
            && Hangup(cfg, i, routed, w) == (if step.flow.Stop? then step.flow.downstream else None)
            && (step.flow.Served? ==>
                  && w.reply.Replied?
                  && forall entries ::
                       ServedRecord(step.flow.status, step.flow.ok, step.flow.text, i, entries)
                         == ChatRecord(RecordOf(cfg, i, w, entries)))
  {
    hide HelperPart, ChatPart, Route, Continues, Serves, Helps, UsageOrigin, FromOutside, IsBroken;
    if w.cancelled.None? && Route(cfg, used, w).Some? {
      var exit := Route(cfg, used, w).value;
      RouteIsNew(cfg, used, w);
      HelperDoes(cfg, i, exit, w, RotateAccount);
      HelperPartFacts(cfg, i, exit, w);
      if Helps(cfg, w) {
        ChatNotes(cfg, i, exit, w);
      } else {
        OneOfThem(cfg, i, exit, w, RotateAccount);
        assert HelperPart(cfg, i, exit, w).1.Some?;
        assert Hangup(cfg, i, true, w) == None;
      }
    }
  }

  /** The client is found to be gone in attempt k. */
  ghost predicate Leaves(cfg: Config, worlds: seq<World>, k: nat, c: ContextError)
    requires Distinct(cfg.proxies)
  {
    && k < |worlds| && k < MaxAttempts(cfg) && UsedAt(cfg, worlds, k).Some?
    && Hangup(cfg, k, exists exit :: Through(cfg, worlds, k, exit), worlds[k]) == Some(c)
  }

  /** Attempt k forwards its reply. */
  ghost predicate Forwarded(cfg: Config, worlds: seq<World>, k: nat)
    requires Distinct(cfg.proxies)
  {
    (exists exit :: Through(cfg, worlds, k, exit)) && Serves(cfg, k, worlds[k])
  }

  /** What attempt k says about the record, if it says anything. */
  ghost predicate Decides(cfg: Config, worlds: seq<World>, k: nat, r: Record)
    requires Distinct(cfg.proxies)
  {
    && (Forwarded(cfg, worlds, k) ==> r == RecordOf(cfg, k, worlds[k], r.entries))
    && (forall c | Leaves(cfg, worlds, k, c) ::
          !r.ok && r.origin.External? && r.text.None? && r.status == if c.DeadlineExceeded? then 504 else 499)
  }

  ghost predicate Decided(cfg: Config, worlds: seq<World>, k: nat)
    requires Distinct(cfg.proxies)
  {
    Forwarded(cfg, worlds, k) || exists c :: Leaves(cfg, worlds, k, c)
  }

  ghost predicate Settled(cfg: Config, worlds: seq<World>, i: nat, r: Record)
    requires Distinct(cfg.proxies)
  {
    && (forall k: nat | i <= k :: Decides(cfg, worlds, k, r))
    && ((forall k: nat | i <= k :: !Decided(cfg, worlds, k)) ==>
          !r.ok && r.origin.Internal? && r.text.None? && r.status == 502)
  }

  lemma NothingDecidedThen(cfg: Config, worlds: seq<World>, i: nat, k: nat)
    requires Distinct(cfg.proxies) && i <= k && i <= |worlds|
    requires i >= MaxAttempts(cfg) || UsedAt(cfg, worlds, i).None?
    ensures !Decided(cfg, worlds, k)
  {
    hide Route, LeadsTo, Turn, UsedAt, Serves, Hangup;
    if k < MaxAttempts(cfg) && k < |worlds| {
      NoneAfterTheLast(cfg, worlds, i, k);
    }
  }

  lemma SettledFromHere(cfg: Config, worlds: seq<World>, i: nat, r: Record)
    requires Distinct(cfg.proxies) && Decides(cfg, worlds, i, r)
    requires !Decided(cfg, worlds, i) ==> Settled(cfg, worlds, i + 1, r)
    requires Decided(cfg, worlds, i) ==> forall k: nat | i < k :: !Decided(cfg, worlds, k)
    ensures Settled(cfg, worlds, i, r)
  {
    hide Forwarded, Leaves, RecordOf;
    forall k: nat | i <= k
      ensures Decides(cfg, worlds, k, r)
    {
      if k > i && Decided(cfg, worlds, i) {
        assert !Decided(cfg, worlds, k);
      }
    }
  }

  lemma {:induction false} RunIsSettled(cfg: Config, i: nat, used: set<int>, worlds: seq<World>,
                                        retry: int, entries: seq<Entry>, e: Effect)
    requires Distinct(cfg.proxies) && i <= Attempts(cfg) <= |worlds|
    requires i < Attempts(cfg) ==> UsedAt(cfg, worlds, i) == Some(used)
    requires e in Run(cfg, i, used, worlds, retry, entries) && e.ChatRecord?
    ensures Settled(cfg, worlds, i, e.record)
    decreases Attempts(cfg) - i
  {
    hide Turn, Settled, Decides, Decided, Route, LeadsTo;
    if i == Attempts(cfg) {
      forall k: nat | i <= k { NothingDecidedThen(cfg, worlds, i, k); }
      NothingSettles(cfg, worlds, i, e.record);
    } else {
      TurnThenRest(cfg, i, used, worlds, retry, entries);
      var step := Turn(cfg, i, used, worlds[i]);
      var entries' := entries + step.entries;
      TurnSettles(cfg, i, used, worlds, if step.exit.Some? then i else retry, entries', e);
      if step.flow.Again? {
        RunIsSettled(cfg, i + 1, UsedAfter(used, step.exit), worlds,
                     if step.exit.Some? then i else retry, entries', e);
        SettledFromHere(cfg, worlds, i, e.record);
      } else {
        forall k: nat | i < k { NothingDecidedThen(cfg, worlds, i + 1, k); }
        if !Decided(cfg, worlds, i) {
          NothingSettles(cfg, worlds, i + 1, e.record);
        }
        SettledFromHere(cfg, worlds, i, e.record);
      }
    }
  }

  lemma NothingSettles(cfg: Config, worlds: seq<World>, i: nat, r: Record)
    requires Distinct(cfg.proxies) && forall k: nat | i <= k :: !Decided(cfg, worlds, k)
    requires !r.ok && r.origin.Internal? && r.text.None? && r.status == 502
    ensures Settled(cfg, worlds, i, r)
  {
    hide Forwarded, Leaves;
    forall k: nat | i <= k
      ensures Decides(cfg, worlds, k, r)
    {
      assert !Decided(cfg, worlds, k);
    }
  }

  /** What a turn that ends the run puts on record. */
  lemma TurnSettles(cfg: Config, i: nat, used: set<int>, worlds: seq<World>,
                    retry: int, entries: seq<Entry>, e: Effect)
    requires Distinct(cfg.proxies) && i < Attempts(cfg) <= |worlds|
    requires UsedAt(cfg, worlds, i) == Some(used)
    ensures var step := Turn(cfg, i, used, worlds[i]);
            && (step.flow.Again? ==> !Decided(cfg, worlds, i))
            && (step.flow.Again? && e.ChatRecord? ==> Decides(cfg, worlds, i, e.record))
            && (&& step.flow.Served?
                && e == ServedRecord(step.flow.status, step.flow.ok, step.flow.text, i, entries) ==>
                  Decided(cfg, worlds, i) && Decides(cfg, worlds, i, e.record))
            && (step.flow.Stop? && e.ChatRecord? && e in Terminal(step.flow.downstream, retry, entries) ==>
                  && Decides(cfg, worlds, i, e.record)
                  && (Decided(cfg, worlds, i) <==> step.flow.downstream.Some?)
                  && (step.flow.downstream.None? ==>
                        && !e.record.ok && e.record.origin.Internal?
                        && e.record.text.None? && e.record.status == 502))
  {
    hide Turn, Route, LeadsTo, UsedAt, Hangup, Serves, FromOutside, UsageOrigin, IsBroken;
    ThroughItsRoute(cfg, worlds, i);
    TurnDoes(cfg, i, used, worlds[i], RotateAccount);
    TurnNotes(cfg, i, used, worlds[i]);
    var step := Turn(cfg, i, used, worlds[i]);
    assert step.exit.Some? ==> Through(cfg, worlds, i, step.exit.value);
    assert step.flow.Stop? && step.flow.downstream.Some? ==> Leaves(cfg, worlds, i, step.flow.downstream.value);
  }

  /** The one record of a request. If an attempt forwards its reply, it is the record of that
      attempt; if the client is found to be gone, it is 499, or 504 after a deadline, and not
      the gateway's fault; otherwise it is a 502 of the gateway's own. */
  lemma WhatIsRecorded(cfg: Config, worlds: seq<World>, e: Effect)
    requires Distinct(cfg.proxies) && Attempts(cfg) <= |worlds|
    requires e in Request(cfg, worlds) && e.ChatRecord?
    ensures forall k: nat | Forwarded(cfg, worlds, k) ::
              e.record == RecordOf(cfg, k, worlds[k], e.record.entries)
    ensures forall k: nat, c | Leaves(cfg, worlds, k, c) ::
              && !e.record.ok && e.record.origin.External? && e.record.text.None?
              && e.record.status == if c.DeadlineExceeded? then 504 else 499
    ensures (forall k: nat :: !Decided(cfg, worlds, k)) ==>
              !e.record.ok && e.record.origin.Internal? && e.record.text.None? && e.record.status == 502
  {
    hide Route, LeadsTo, Turn, Hangup, RecordOf;
    RunIsSettled(cfg, 0, {}, worlds, 0, [], e);
    forall k: nat
      ensures Forwarded(cfg, worlds, k) ==> e.record == RecordOf(cfg, k, worlds[k], e.record.entries)
      ensures forall c | Leaves(cfg, worlds, k, c) ::
                && !e.record.ok && e.record.origin.External? && e.record.text.None?
                && e.record.status == if c.DeadlineExceeded? then 504 else 499
    {
      assert Decides(cfg, worlds, k, e.record);
    }
  }

  /** A failure reply has the status of the record. */
  lemma {:induction false} FailureReplies(cfg: Config, i: nat, used: set<int>, worlds: seq<World>,
                                          retry: int, entries: seq<Entry>, status: int)
    requires Distinct(cfg.proxies) && i <= Attempts(cfg) <= |worlds|
    ensures var log := Run(cfg, i, used, worlds, retry, entries);
            ErrorReply(status) in log <==>
            exists e :: e in log && e.ChatRecord? && e.record.text.None? && e.record.status == status
    decreases Attempts(cfg) - i
  {
    hide Turn;
    if i < Attempts(cfg) {
      TurnThenRest(cfg, i, used, worlds, retry, entries);
      var step := Turn(cfg, i, used, worlds[i]);
      var retry' := if step.exit.Some? then i else retry;
      if step.flow.Again? {
        FailureReplies(cfg, i + 1, UsedAfter(used, step.exit), worlds, retry', entries + step.entries, status);
      } else if step.flow.Stop? {
        TerminalReplies(step.flow.downstream, retry', entries + step.entries, status);
      }
    } else {
      TerminalReplies(None, retry, entries, status);
    }
  }

  lemma TerminalReplies(downstream: Option<ContextError>, retry: int, entries: seq<Entry>, status: int)
    ensures var log := Terminal(downstream, retry, entries);
            ErrorReply(status) in log <==>
            exists e :: e in log && e.ChatRecord? && e.record.text.None? && e.record.status == status
  {
    var log := Terminal(downstream, retry, entries);
    assert log[0] in log;
  }

  /** The requests sent from attempt i on are on record. */
  ghost predicate NotedFrom(cfg: Config, worlds: seq<World>, i: nat, en: Entry)
    requires Distinct(cfg.proxies)
  {
    exists k: nat, exit ::
      && i <= k && Through(cfg, worlds, k, exit) && Helps(cfg, worlds[k])
      && en == EntryOf(cfg, k, exit, worlds[k])
  }

  lemma NotedHereOrLater(cfg: Config, worlds: seq<World>, i: nat, en: Entry)
    requires Distinct(cfg.proxies)
    ensures NotedFrom(cfg, worlds, i, en) <==>
            || (exists exit :: && Through(cfg, worlds, i, exit) && Helps(cfg, worlds[i])
                               && en == EntryOf(cfg, i, exit, worlds[i]))
            || NotedFrom(cfg, worlds, i + 1, en)
  {
    hide Through, Helps, EntryOf;
  }

  lemma NotedByThen(cfg: Config, worlds: seq<World>, i: nat, en: Entry)
    requires Distinct(cfg.proxies) && i <= |worlds|
    requires i >= MaxAttempts(cfg) || UsedAt(cfg, worlds, i).None?
    ensures !NotedFrom(cfg, worlds, i, en)
  {
    hide Helps, EntryOf, Route, LeadsTo, Turn, UsedAt;
    forall k: nat, exit | i <= k && k < MaxAttempts(cfg) && Through(cfg, worlds, k, exit)
      ensures false
    {
      NoneAfterTheLast(cfg, worlds, i, k);
    }
  }

  lemma {:induction false} RunNotes(cfg: Config, i: nat, used: set<int>, worlds: seq<World>,
                                    retry: int, entries: seq<Entry>, e: Effect, en: Entry)
    requires Distinct(cfg.proxies) && i <= Attempts(cfg) <= |worlds|
    requires i < Attempts(cfg) ==> UsedAt(cfg, worlds, i) == Some(used)
    requires e in Run(cfg, i, used, worlds, retry, entries) && e.ChatRecord?
    ensures en in e.record.entries <==> en in entries || NotedFrom(cfg, worlds, i, en)
    decreases Attempts(cfg) - i
  {
    hide Turn, NotedFrom, Route, LeadsTo, EntryOf, Helps, RecordOf, UsageOrigin, Hangup, Continues, Serves;
    if i == Attempts(cfg) {
      NotedByThen(cfg, worlds, i, en);
    } else {
      NotedHereOrLater(cfg, worlds, i, en);
      ThroughItsRoute(cfg, worlds, i);
      TurnDoes(cfg, i, used, worlds[i], RotateAccount);
      TurnNotes(cfg, i, used, worlds[i]);
      TurnThenRest(cfg, i, used, worlds, retry, entries);
      var step := Turn(cfg, i, used, worlds[i]);
      assert step.exit.Some? ==> Through(cfg, worlds, i, step.exit.value);
      if step.flow.Again? {
        RunNotes(cfg, i + 1, UsedAfter(used, step.exit), worlds,
                 if step.exit.Some? then i else retry, entries + step.entries, e, en);
      } else {
        NotedByThen(cfg, worlds, i + 1, en);
      }
    }
  }

  /** The record lists each chat request with its attempt, exit and status, and whether it
      failed: 0 and failed if it could not be sent, failed in copying if its reply was forwarded
      and broke. */
  lemma RequestsOnRecord(cfg: Config, worlds: seq<World>, e: Effect, en: Entry)
    requires Distinct(cfg.proxies) && Attempts(cfg) <= |worlds|
    requires e in Request(cfg, worlds) && e.ChatRecord?
    ensures en in e.record.entries <==>
            exists k: nat, exit ::
              && Through(cfg, worlds, k, exit) && Helps(cfg, worlds[k])
              && en == if worlds[k].reply.NotSent? then Entry(k + 1, exit, 0, true)
                       else Entry(k + 1, exit, worlds[k].reply.status,
                                  Serves(cfg, k, worlds[k]) && IsBroken(cfg, worlds[k]))
  {
    hide Through, Helps, Serves, IsBroken;
    RunNotes(cfg, 0, {}, worlds, 0, [], e, en);
  }

  lemma {:induction false} RunCountsRetries(cfg: Config, i: nat, used: set<int>, worlds: seq<World>,
                                            retry: int, entries: seq<Entry>, e: Effect)
    requires Distinct(cfg.proxies) && i <= Attempts(cfg) <= |worlds| && retry <= i
    requires i < Attempts(cfg) ==> UsedAt(cfg, worlds, i) == Some(used)
    requires e in Run(cfg, i, used, worlds, retry, entries) && e.ChatRecord?
    ensures forall k: nat, exit | i <= k && Through(cfg, worlds, k, exit) :: k <= e.record.retry
    ensures e.record.retry == retry
            || (i <= e.record.retry && exists exit :: Through(cfg, worlds, e.record.retry, exit))
    decreases Attempts(cfg) - i
  {
    hide Turn, Route, LeadsTo, RecordOf, UsageOrigin, Hangup, Continues, Serves, Due, UsedAt;
    if i < Attempts(cfg) {
      UsedGrows(cfg, worlds, i);
      ThroughItsRoute(cfg, worlds, i);
      TurnDoes(cfg, i, used, worlds[i], RotateAccount);
      TurnThenRest(cfg, i, used, worlds, retry, entries);
      var step := Turn(cfg, i, used, worlds[i]);
      var retry' := if step.exit.Some? then i else retry;
      assert step.exit.Some? <==> exists exit :: Through(cfg, worlds, i, exit) by {
        if step.exit.Some? {
          assert Through(cfg, worlds, i, step.exit.value);
        }
      }
      if step.flow.Again? {
        RunCountsRetries(cfg, i + 1, UsedAfter(used, step.exit), worlds, retry', entries + step.entries, e);
      } else {
        forall k: nat, exit | i < k && Through(cfg, worlds, k, exit)
          ensures false
        {
          NoneAfterTheLast(cfg, worlds, i + 1, k);
        }
      }
    }
  }

  lemma UsedGrows(cfg: Config, worlds: seq<World>, i: nat)
    requires Distinct(cfg.proxies) && i < |worlds| && UsedAt(cfg, worlds, i).Some?
    ensures var step := Turn(cfg, i, UsedAt(cfg, worlds, i).value, worlds[i]);
            UsedAt(cfg, worlds, i + 1) ==
            if step.flow.Again? then Some(UsedAfter(UsedAt(cfg, worlds, i).value, step.exit)) else None
  {
    hide Turn;
  }

  /** The retry count on record is the number of the last attempt made, 0 if none was. */
  lemma RetryIsTheLastAttempt(cfg: Config, worlds: seq<World>, e: Effect)
    requires Distinct(cfg.proxies) && Attempts(cfg) <= |worlds|
    requires e in Request(cfg, worlds) && e.ChatRecord?
    ensures forall k: nat, exit | Through(cfg, worlds, k, exit) :: k <= e.record.retry
    ensures e.record.retry == 0
            || (e.record.retry > 0 && exists exit :: Through(cfg, worlds, e.record.retry, exit))
  {
    hide Through;
    RunCountsRetries(cfg, 0, {}, worlds, 0, [], e);
  }

  /** How many attempts there are at most. */
  lemma AttemptsAtMost(cfg: Config)
    ensures Attempts(cfg) == if cfg.engine.Resin? then 10 else if |cfg.proxies| <= 3 then |cfg.proxies| else 3
  {
  }
}
