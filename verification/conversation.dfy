/** The chat dispatcher and the four phase handlers (src/index.ts:12-99) with
    the save step `setStateFor` (src/index.ts:167-172). Every outside effect a
    turn depends on is a field of `World`. A handler receives the cached
    session object and may mutate its metadata before returning, so a handler
    outcome carries the session as it is afterwards (`current`) next to what it
    returns (`next`, `None` for null). */
module Conversation {
  import opened Wrappers
  import opened Types
  import Merge
  import Presets
  import Sync
  import Calendar

  /** What a turn reads from outside the session: `validateEmail`, `login`,
      the clock, the two remote tables, `dateToText` split into the day a
      stored date falls on and the text of a day, and the state the storage
      hands out after signing out. */
  datatype World = World(
    isEmail: string -> bool,
    login: (Option<string>, string) -> Result<seq<Cookie>, Fault>,
    now: int,
    deliveries: Sync.Source<RawDelivery>,
    commissions: Sync.Source<RawCommission>,
    dayOf: string -> int,
    dayText: int -> string,
    signedOut: UserState)
  {
    /** `dateToText(new Date(date))` for a stored delivery date: the same day
        text the queries look up, so an order is found under the day it fell on. */
    function DayKey(): (key: string -> string)
      ensures forall date :: key(date) == dayText(dayOf(date))
    {
      date => dayText(dayOf(date))
    }
  }

  /** What the chat is told, as far as the model follows it: a query answer or
      the apology sent when the sync of the query phase fails. */
  datatype Answer = Report(reply: Presets.Reply) | Apology

  /** A handler either returns (`next` is its result, `None` for null) or throws. */
  datatype Outcome =
    | Handled(current: UserState, next: Option<UserState>, answer: Option<Answer>)
    | Threw(fault: Fault, current: UserState)

  /** The end of a turn: the state saved by `setStateFor`, or the fault the turn
      died with (or, for `FillNeverEnds`, hung on), in which case nothing is
      saved and only the cached session keeps whatever the handler had mutated. */
  datatype TurnResult =
    | Saved(state: UserState, answer: Option<Answer>)
    | Crashed(fault: Fault, cached: UserState)

  /** `{ ...stored.metadata, ...given.metadata }`: every key of the given metadata
      wins; keys only the stored metadata has are kept. */
  function ShallowMerge(stored: Metadata, given: Metadata): (m: Metadata)
    ensures m.lastUpdatedAt == given.lastUpdatedAt
    ensures m.ordersWithCommission == given.ordersWithCommission && m.ordersWithDate == given.ordersWithDate
    ensures m.extra.Keys == stored.extra.Keys + given.extra.Keys
    ensures forall k :: k in given.extra ==> m.extra[k] == given.extra[k]
    ensures forall k :: k in stored.extra && k !in given.extra ==> m.extra[k] == stored.extra[k]
  {
    Metadata(given.lastUpdatedAt, given.ordersWithCommission, given.ordersWithDate, stored.extra + given.extra)
  }

  /** Merging metadata with itself changes nothing, so saving the session a
      handler mutated in place stores exactly that session. */
  lemma ShallowMergeSelf(m: Metadata)
    ensures ShallowMerge(m, m) == m
  {
  }

  /** `setStateFor(chatId, {state, metadata})` against the cached session `stored`. */
  function SetState(stored: UserState, given: UserState): (s: UserState)
    ensures s.phase == given.phase && s.metadata == ShallowMerge(stored.metadata, given.metadata)
  {
    UserState(given.phase, ShallowMerge(stored.metadata, given.metadata))
  }

  function WithExtra(s: UserState, key: string, value: Extra): (t: UserState)
    ensures t.phase == s.phase && t.metadata.extra == s.metadata.extra[key := value]
    ensures t.metadata.lastUpdatedAt == s.metadata.lastUpdatedAt
    ensures t.metadata.ordersWithDate == s.metadata.ordersWithDate
    ensures t.metadata.ordersWithCommission == s.metadata.ordersWithCommission
  {
    s.(metadata := s.metadata.(extra := s.metadata.extra[key := value]))
  }

  /** `state.metadata.email`, if it was ever recorded as text. */
  function EmailOf(s: UserState): (email: Option<string>)
  {
    if EmailKey in s.metadata.extra && s.metadata.extra[EmailKey].Text? then Some(s.metadata.extra[EmailKey].text) else None
  }

  /** Whether `pattern` occurs in `text` starting at `i`. */
  predicate OccursAt(text: string, pattern: string, i: nat)
  {
    i + |pattern| <= |text| && text[i..i + |pattern|] == pattern
  }

  /** `text.match(/pattern/)` for a pattern without special characters: the
      pattern occurs somewhere in the text. */
  predicate Contains(text: string, pattern: string)
  {
    exists i :: 0 <= i <= |text| && OccursAt(text, pattern, i)
  }

  const LogoutCommand: string := "/cerrarSesion"

  /** The four queries, in the order the handler tests them. */
  datatype Query = Today | Yesterday | ThisWeek | LastWeek

  function QueryText(q: Query): (command: string)
  {
    match q
    case Today => "/hoy"
    case Yesterday => "/ayer"
    case ThisWeek => "/estaSemana"
    case LastWeek => "/semanaPasada"
  }

  /** The query a text asks for: the first of the four commands, in that fixed
      order, that occurs anywhere in it, whatever their positions in the text. */
  function QueryOf(text: string): (q: Option<Query>)
    ensures q == Some(Today) <==> Contains(text, "/hoy")
    ensures q == Some(Yesterday) <==> !Contains(text, "/hoy") && Contains(text, "/ayer")
    ensures q == Some(ThisWeek) <==> !Contains(text, "/hoy") && !Contains(text, "/ayer") && Contains(text, "/estaSemana")
    ensures q == Some(LastWeek) <==>
      !Contains(text, "/hoy") && !Contains(text, "/ayer") && !Contains(text, "/estaSemana") && Contains(text, "/semanaPasada")
    ensures q.Some? ==> Contains(text, QueryText(q.value))
  {
    if Contains(text, "/hoy") then Some(Today)
    else if Contains(text, "/ayer") then Some(Yesterday)
    else if Contains(text, "/estaSemana") then Some(ThisWeek)
    else if Contains(text, "/semanaPasada") then Some(LastWeek)
    else None
  }

  /** The answer to a query over the grouped ledger, today being the day of `now`. */
  ghost function Answering(q: Query, g: Dict<Dict<Order>>, w: World): (reply: Presets.Reply)
  {
    var today := Calendar.DayOf(w.now);
    match q
    case Today => Presets.OnTodayText(g, today, w.dayText)
    case Yesterday => Presets.OnYesterdayText(g, today, w.dayText)
    case ThisWeek => Presets.OnWeekText(g, today, w.dayText)
    case LastWeek => Presets.OnLastWeekText(g, today, w.dayText)
  }

  /** `onGreeting`: any text moves the session on to asking for the email. */
  function OnGreeting(s: UserState): (o: Outcome)
    ensures o.Handled? && o.current == s && o.answer.None?
    ensures o.next == Some(UserState(AskEmail, s.metadata))
  {
    Handled(s, Some(s.(phase := AskEmail)), None)
  }

  /** `onAskEmail`: an invalid email returns null; a valid one is recorded
      under `email` and the session moves on to asking for the password. */
  function OnAskEmail(s: UserState, text: string, w: World): (o: Outcome)
    ensures o.Handled? && o.answer.None?
    ensures !w.isEmail(text) ==> o.current == s && o.next.None?
    ensures w.isEmail(text) ==>
      o.current == WithExtra(s, EmailKey, Text(text)) && o.next == Some(UserState(AskPass, o.current.metadata))
  {
    if !w.isEmail(text) then Handled(s, None, None)
    else
      var t := WithExtra(s, EmailKey, Text(text));
      Handled(t, Some(t.(phase := AskPass)), None)
  }

  /** `onAskPass`: an empty text returns null; otherwise the login result is
      recorded under `cookies`, the orders are synced, and the session moves on
      to answering queries. A failing login or sync throws (a sync whose
      date repair never ends hangs, which the model records the same way). */
  function OnAskPass(s: UserState, text: string, w: World): (o: Outcome)
    ensures text == "" ==> o == Handled(s, None, None)
    ensures text != "" && w.login(EmailOf(s), text).Failure? ==> o == Threw(w.login(EmailOf(s), text).error, s)
    ensures o.Handled? && text != "" ==>
      && w.login(EmailOf(s), text).Success?
      && CookiesKey in o.current.metadata.extra
      && o.current.metadata.extra[CookiesKey] == Jar(w.login(EmailOf(s), text).value)
      && o.next == Some(UserState(AnswerQueries, o.current.metadata)) && o.answer.None?
    ensures text != "" && w.login(EmailOf(s), text).Success? ==>
      var t := WithExtra(s, CookiesKey, Jar(w.login(EmailOf(s), text).value));
      var r := Sync.UpdateOrders(t.metadata, w.now, w.deliveries, w.commissions);
      && (r.Completed? ==> o == Handled(t.(metadata := r.value), Some(UserState(AnswerQueries, r.value)), None))
      && (r.Aborted? ==> o == Threw(r.fault, t.(metadata := r.partial)))
    ensures o.current.phase == s.phase
  {
    if text == "" then Handled(s, None, None)
    else
      match w.login(EmailOf(s), text)
      case Failure(f) => Threw(f, s)
      case Success(cookies) =>
        var t := WithExtra(s, CookiesKey, Jar(cookies));
        match Sync.UpdateOrders(t.metadata, w.now, w.deliveries, w.commissions)
        case Aborted(f, partial) => Threw(f, t.(metadata := partial))
        case Completed(m) =>
          var u := t.(metadata := m);
          Handled(u, Some(u.(phase := AnswerQueries)), None)
  }

  /** Whether the sync of a query turn hangs: the delivery loop reaches a page
      whose date repair never ends, so `await updateOrders(state)` never
      returns and the `catch` around it never runs. */
  predicate SyncHangs(s: UserState, w: World)
  {
    var r := Sync.UpdateOrders(s.metadata, w.now, w.deliveries, w.commissions);
    r.Aborted? && r.fault == FillNeverEnds
  }

  /** `onAnswerQueries`: the sign-out command returns the signed-out state;
      anything else syncs (a failing sync is caught and apologised for, a
      hanging one ends the turn), merges the ledger, answers the first query
      the text names, and returns null. */
  ghost function OnAnswerQueries(s: UserState, text: string, w: World): (o: Outcome)
    ensures Contains(text, LogoutCommand) ==> o == Handled(s, Some(w.signedOut), None)
    ensures !Contains(text, LogoutCommand) && SyncHangs(s, w) ==> o == Threw(FillNeverEnds, s)
    ensures !Contains(text, LogoutCommand) && !SyncHangs(s, w) ==> o.Handled? && o.next.None? && o.current.phase == s.phase
    ensures !Contains(text, LogoutCommand) && Sync.UpdateOrders(s.metadata, w.now, w.deliveries, w.commissions).Completed? ==>
      o.current == s.(metadata := Sync.UpdateOrders(s.metadata, w.now, w.deliveries, w.commissions).value)
    ensures !Contains(text, LogoutCommand) && Sync.UpdateOrders(s.metadata, w.now, w.deliveries, w.commissions).Aborted? && !SyncHangs(s, w) ==>
      o == Handled(s.(metadata := Sync.UpdateOrders(s.metadata, w.now, w.deliveries, w.commissions).partial), None, Some(Apology))
    ensures !Contains(text, LogoutCommand) && o.Handled? && o.answer == Some(Apology) ==>
      Sync.UpdateOrders(s.metadata, w.now, w.deliveries, w.commissions).Aborted? && !SyncHangs(s, w)
    ensures !Contains(text, LogoutCommand) && o.Handled? && QueryOf(text).None? ==> o.answer.None? || o.answer == Some(Apology)
    ensures !Contains(text, LogoutCommand) && Sync.UpdateOrders(s.metadata, w.now, w.deliveries, w.commissions).Completed? ==>
      var m := o.current.metadata;
      o.Handled? && o.answer == (if QueryOf(text).None? then None
                   else Some(Report(Answering(QueryOf(text).value, Merge.MergeOrdersInfo(m.ordersWithDate, m.ordersWithCommission, w.DayKey()), w))))
  {
    if Contains(text, LogoutCommand) then Handled(s, Some(w.signedOut), None)
    else
      match Sync.UpdateOrders(s.metadata, w.now, w.deliveries, w.commissions)
      case Aborted(f, partial) =>
        if f == FillNeverEnds then Threw(f, s) else Handled(s.(metadata := partial), None, Some(Apology))
      case Completed(m) =>
        var t := s.(metadata := m);
        var g := Merge.MergeOrdersInfo(m.ordersWithDate, m.ordersWithCommission, w.DayKey());
        match QueryOf(text)
        case None => Handled(t, None, None)
        case Some(q) => Handled(t, None, Some(Report(Answering(q, g, w))))
  }

  /** Orders are grouped by the same `dateToText` the queries look up: every
      ledger entry sits in the bucket of the day text of the day it fell on. */
  lemma OrderFiledUnderItsDay(ds: seq<Delivery>, cs: seq<Commission>, w: World, id: string)
    requires id in Merge.Ledger(ds, cs)
    ensures w.dayText(w.dayOf(Merge.Ledger(ds, cs)[id].date)) in Merge.MergeOrdersInfo(ds, cs, w.DayKey())
    ensures id in Merge.MergeOrdersInfo(ds, cs, w.DayKey())[w.dayText(w.dayOf(Merge.Ledger(ds, cs)[id].date))]
    ensures Merge.MergeOrdersInfo(ds, cs, w.DayKey())[w.dayText(w.dayOf(Merge.Ledger(ds, cs)[id].date))][id] == Merge.Ledger(ds, cs)[id]
  {
    var key := w.DayKey();
    assert key(Merge.Ledger(ds, cs)[id].date) == w.dayText(w.dayOf(Merge.Ledger(ds, cs)[id].date));
  }

  /** `allStatesHandlers[state.state]`: the handler of the session's phase. */
  ghost function Handle(s: UserState, text: string, w: World): (o: Outcome)
    ensures o.current.phase == s.phase
    ensures o.Handled? ==> o.next.GetOr(o.current).phase in PhasesAfter(s.phase, w)
  {
    match s.phase
    case Greeting => OnGreeting(s)
    case AskEmail => OnAskEmail(s, text, w)
    case AskPass => OnAskPass(s, text, w)
    case AnswerQueries => OnAnswerQueries(s, text, w)
  }

  /** One turn on the text a handler receives: run the phase's handler, keep the
      (mutated) current state when it returns null, and save the result merged
      into the cached session. */
  ghost function Dispatch(s: UserState, text: string, w: World): (r: TurnResult)
    ensures r.Crashed? ==> r.cached.phase == s.phase
    ensures r.Saved? ==> r.state.phase in PhasesAfter(s.phase, w)
  {
    match Handle(s, text, w)
    case Threw(f, current) => Crashed(f, current)
    case Handled(current, next, answer) => Saved(SetState(current, next.GetOr(current)), answer)
  }

  /** The characters JavaScript's `.` does not match: line feed, carriage
      return, line separator and paragraph separator. */
  predicate LineBreak(c: char)
  {
    c == '\n' || c == '\r' || c == '\U{2028}' || c == '\U{2029}'
  }

  /** `match[0]` of the pattern `.*` on a message: the longest prefix without a line break. */
  function FirstLine(message: string): (text: string)
    ensures |text| <= |message| && text == message[..|text|]
    ensures forall i :: 0 <= i < |text| ==> !LineBreak(text[i])
    ensures |text| < |message| ==> LineBreak(message[|text|])
  {
    if |message| == 0 || LineBreak(message[0]) then [] else [message[0]] + FirstLine(message[1..])
  }

  /** `FirstLine` is the only prefix that has no line break and ends at the
      message's end or at a line break. */
  lemma {:induction false} FirstLineIs(message: string, line: string)
    requires |line| <= |message| && line == message[..|line|]
    requires forall i :: 0 <= i < |line| ==> !LineBreak(line[i])
    requires |line| < |message| ==> LineBreak(message[|line|])
    ensures FirstLine(message) == line
    decreases |line|
  {
    if |line| > 0 {
      assert message[0] == line[0];
      assert line[1..] == message[1..][..|line| - 1];
      FirstLineIs(message[1..], line[1..]);
      assert line == [line[0]] + line[1..];
    }
  }

  /** `bot.onText` with the pattern `.*`: a message reaches the handlers as its first line only. */
  ghost function OnMessage(s: UserState, message: string, w: World): (r: TurnResult)
    ensures r.Crashed? ==> r.cached.phase == s.phase
    ensures r.Saved? ==> r.state.phase in PhasesAfter(s.phase, w)
  {
    Dispatch(s, FirstLine(message), w)
  }

  /** Whatever follows the first line break of a message is never read: a
      command or the rest of a password on a later line has no effect. */
  lemma LaterLinesIgnored(s: UserState, line: string, brk: char, rest: string, w: World)
    requires forall i :: 0 <= i < |line| ==> !LineBreak(line[i])
    requires LineBreak(brk)
    ensures OnMessage(s, line + [brk] + rest, w) == OnMessage(s, line, w)
  {
    var message := line + [brk] + rest;
    assert message[..|line|] == line && message[|line|] == brk;
    FirstLineIs(message, line);
    FirstLineIs(line, line);
  }

  /** The phases a turn may save: the same phase or the next one of the fixed
      order, and from the query phase the signed-out state's phase. */
  function PhasesAfter(p: Phase, w: World): (phases: set<Phase>)
  {
    match p
    case Greeting => {AskEmail}
    case AskEmail => {AskEmail, AskPass}
    case AskPass => {AskPass, AnswerQueries}
    case AnswerQueries => {AnswerQueries, w.signedOut.phase}
  }

  /** A handler that returns null saves the session exactly as it mutated it. */
  lemma NullKeepsCurrent(s: UserState, text: string, w: World)
    requires Handle(s, text, w).Handled? && Handle(s, text, w).next.None?
    ensures Dispatch(s, text, w) == Saved(Handle(s, text, w).current, Handle(s, text, w).answer)
  {
    ShallowMergeSelf(Handle(s, text, w).current.metadata);
  }

  /** Greeting: any text moves to asking for the email, metadata unchanged. */
  lemma GreetingAsksForEmail(s: UserState, text: string, w: World)
    requires s.phase == Greeting
    ensures Dispatch(s, text, w) == Saved(UserState(AskEmail, s.metadata), None)
  {
    ShallowMergeSelf(s.metadata);
  }

  /** Asking for the email: an invalid email keeps the session as it is; a
      valid one is stored and the password is asked for next. */
  lemma AskEmailStep(s: UserState, text: string, w: World)
    requires s.phase == AskEmail
    ensures !w.isEmail(text) ==> Dispatch(s, text, w) == Saved(s, None)
    ensures w.isEmail(text) ==> Dispatch(s, text, w) == Saved(UserState(AskPass, WithExtra(s, EmailKey, Text(text)).metadata), None)
  {
    ShallowMergeSelf(s.metadata);
    ShallowMergeSelf(WithExtra(s, EmailKey, Text(text)).metadata);
  }

  /** Asking for the password: a rejected login or a failing sync ends the turn
      before any phase change; the session moves on only after both succeed. */
  lemma AskPassStep(s: UserState, text: string, w: World)
    requires s.phase == AskPass
    ensures text == "" ==> Dispatch(s, text, w) == Saved(s, None)
    ensures text != "" && w.login(EmailOf(s), text).Failure? ==> Dispatch(s, text, w) == Crashed(w.login(EmailOf(s), text).error, s)
    ensures Dispatch(s, text, w).Saved? && Dispatch(s, text, w).state.phase == AnswerQueries ==>
      && text != "" && w.login(EmailOf(s), text).Success?
      && CookiesKey in Dispatch(s, text, w).state.metadata.extra
      && Dispatch(s, text, w).state.metadata.extra[CookiesKey] == Jar(w.login(EmailOf(s), text).value)
    ensures text != "" && w.login(EmailOf(s), text).Success? ==>
      var t := WithExtra(s, CookiesKey, Jar(w.login(EmailOf(s), text).value));
      var r := Sync.UpdateOrders(t.metadata, w.now, w.deliveries, w.commissions);
      && (r.Completed? ==> Dispatch(s, text, w) == Saved(UserState(AnswerQueries, r.value), None))
      && (r.Aborted? ==> Dispatch(s, text, w) == Crashed(r.fault, t.(metadata := r.partial)))
  {
    ShallowMergeSelf(s.metadata);
    var o := OnAskPass(s, text, w);
    if o.Handled? {
      ShallowMergeSelf(o.current.metadata);
    }
  }

  /** The query phase: only the sign-out command leaves it; every other text
      (a query, an unknown text, or a failing sync) keeps the phase, except a
      sync that hangs, which saves nothing and leaves the cache as it was. */
  lemma QueryPhaseStays(s: UserState, text: string, w: World)
    requires s.phase == AnswerQueries
    ensures Dispatch(s, text, w).Saved? <==> Contains(text, LogoutCommand) || !SyncHangs(s, w)
    ensures !Contains(text, LogoutCommand) && SyncHangs(s, w) ==> Dispatch(s, text, w) == Crashed(FillNeverEnds, s)
    ensures Contains(text, LogoutCommand) ==>
      Dispatch(s, text, w).state == UserState(w.signedOut.phase, ShallowMerge(s.metadata, w.signedOut.metadata))
    ensures !Contains(text, LogoutCommand) && Dispatch(s, text, w).Saved? ==> Dispatch(s, text, w).state.phase == AnswerQueries
    ensures !Contains(text, LogoutCommand) && Sync.UpdateOrders(s.metadata, w.now, w.deliveries, w.commissions).Completed? ==>
      && Dispatch(s, text, w).Saved?
      && Dispatch(s, text, w).state == UserState(AnswerQueries, Sync.UpdateOrders(s.metadata, w.now, w.deliveries, w.commissions).value)
      && (Dispatch(s, text, w).answer.None? <==> QueryOf(text).None?)
    ensures !Contains(text, LogoutCommand) && Sync.UpdateOrders(s.metadata, w.now, w.deliveries, w.commissions).Aborted? && !SyncHangs(s, w) ==>
      Dispatch(s, text, w) == Saved(UserState(AnswerQueries, Sync.UpdateOrders(s.metadata, w.now, w.deliveries, w.commissions).partial), Some(Apology))
  {
    var o := OnAnswerQueries(s, text, w);
    if o.Handled? {
      ShallowMergeSelf(o.current.metadata);
    }
  }
}
