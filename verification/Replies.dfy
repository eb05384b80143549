// Sending replies: a log of outbound messages with idempotency keys, drafts that are used once, and
// a limit on how many messages a user sends in a minute.
module Replies {
  import opened Options

  type Id = nat

  const WINDOW_MS: int := 60_000
  const LIMIT: nat := 30

  datatype Message = Message(id: Id, conversation: Id, user: Id, text: string, key: Id, at: int)

  datatype DraftStatus = Queued | Processing | Ready | Used | Stale | Blocked | Failed

  // A used draft is linked to the message it became.
  datatype Draft = Draft(conversation: Id, anchor: Id, status: DraftStatus, message: Option<Id>)

  // Messages in the order in which they were created; the latest inbound message of each conversation.
  datatype State = State(messages: seq<Message>, drafts: map<Id, Draft>, anchors: map<Id, Option<Id>>)

  datatype Request = Request(user: Id, conversation: Id, text: string, key: Id, draft: Option<Id>)

  // What a request meets: the time it was taken in and the time its message gets, the fresh id, whether
  // the channel is ready, whether its standard reply window is open, and whether drafts are enabled and
  // the draft's sources are still as they were.
  datatype Setting = Setting(
    now: int, at: int, freshId: Id, connected: bool, standard: bool, draftsEnabled: bool, sourcesCurrent: bool)

  datatype Error =
    | NotFound | NoInbound | NotConnected | NotStandard | KeyUsed | KeyUsedForAnotherReply
    | DraftsDisabled | DraftNotReady | NewMessage | SourceChanged | RateLimited

  datatype Outcome = Sent(message: Message) | Replayed(message: Message) | Rejected(error: Error)

  // ----- Queries -----

  function FindKey(messages: seq<Message>, key: Id): Option<Message> {
    if messages == [] then None
    else if messages[0].key == key then Some(messages[0])
    else FindKey(messages[1..], key)
  }

  // The messages of a user created at or after a moment.
  function CountSince(messages: seq<Message>, user: Id, since: int): nat {
    if messages == [] then 0
    else
      var last := messages[|messages| - 1];
      CountSince(messages[..|messages| - 1], user, since) + if last.user == user && last.at >= since then 1 else 0
  }

  // The draft that became the message, if any, is the expected one.
  ghost predicate LinkMatches(drafts: map<Id, Draft>, message: Id, draft: Option<Id>) {
    match draft
    case Some(d) => d in drafts && drafts[d].message == Some(message)
    case None => forall d: Id :: d in drafts ==> drafts[d].message != Some(message)
  }

  // ----- One request -----

  function ReadinessError(st: State, r: Request, e: Setting): Option<Error> {
    if r.conversation !in st.anchors then Some(NotFound)
    else if r.draft.Some? && st.anchors[r.conversation].None? then Some(NoInbound)
    else if !e.connected then Some(NotConnected)
    else if r.draft.Some? && !e.standard then Some(NotStandard)
    else None
  }

  ghost function Replay(st: State, r: Request, existing: Message): Outcome {
    if existing.conversation != r.conversation || existing.text != r.text then Rejected(KeyUsed)
    else if !LinkMatches(st.drafts, existing.id, r.draft) then Rejected(KeyUsedForAnotherReply)
    else Replayed(existing)
  }

  function DraftError(st: State, r: Request, e: Setting): Option<Error> {
    match r.draft
    case None => None
    case Some(d) =>
      if !e.draftsEnabled then Some(DraftsDisabled)
      else if d !in st.drafts || st.drafts[d].conversation != r.conversation || st.drafts[d].status != Ready then
        Some(DraftNotReady)
      else if r.conversation in st.anchors && st.anchors[r.conversation] != Some(st.drafts[d].anchor) then Some(NewMessage)
      else if !e.sourcesCurrent then Some(SourceChanged)
      else None
  }

  function Staled(drafts: map<Id, Draft>, d: Id): map<Id, Draft>
    requires d in drafts
  {
    drafts[d := drafts[d].(status := Stale)]
  }

  function UsedFor(drafts: map<Id, Draft>, d: Option<Id>, message: Id): map<Id, Draft> {
    if d.Some? && d.value in drafts
    then drafts[d.value := drafts[d.value].(status := Used, message := Some(message))]
    else drafts
  }

  function NewReply(r: Request, e: Setting): Message {
    Message(e.freshId, r.conversation, r.user, r.text, r.key, e.at)
  }

  ghost function SendOutcome(st: State, r: Request, e: Setting): Outcome {
    var error := ReadinessError(st, r, e);
    if error.Some? then Rejected(error.value)
    else
      var existing := FindKey(st.messages, r.key);
      if existing.Some? then Replay(st, r, existing.value)
      else
        var draftError := DraftError(st, r, e);
        if draftError.Some? then Rejected(draftError.value)
        else if CountSince(st.messages, r.user, e.now - WINDOW_MS) >= LIMIT then Rejected(RateLimited)
        else Sent(NewReply(r, e))
  }

  // Sending changes the log and the draft; finding the draft stale changes that draft alone, and is
  // kept although the request fails.
  ghost function AfterSend(st: State, r: Request, e: Setting): State {
    match SendOutcome(st, r, e)
    case Sent(m) => st.(messages := st.messages + [m], drafts := UsedFor(st.drafts, r.draft, m.id))
    case Rejected(error) =>
      if (error == NewMessage || error == SourceChanged) && r.draft.Some? && r.draft.value in st.drafts
      then st.(drafts := Staled(st.drafts, r.draft.value))
      else st
    case Replayed(_) => st
  }

  // ----- Runs -----

  // Beside sending, messages come in, drafts are made, and drafts that are not used change status.
  datatype Step =
    | Send(request: Request, setting: Setting)
    | Inbound(conversation: Id, message: Id)
    | MakeDraft(draft: Id, conversation: Id, anchor: Id)
    | MoveDraft(draft: Id, to: DraftStatus)

  ghost predicate Possible(st: State, step: Step) {
    match step
    case Send(r, e) => e.now <= e.at && forall i :: 0 <= i < |st.messages| ==> st.messages[i].id != e.freshId
    case Inbound(_, _) => true
    case MakeDraft(d, _, _) => d !in st.drafts
    case MoveDraft(d, to) => d in st.drafts && st.drafts[d].status != Used && to != Used
  }

  ghost function Apply(st: State, step: Step): State {
    match step
    case Send(r, e) => AfterSend(st, r, e)
    case Inbound(c, m) => st.(anchors := st.anchors[c := Some(m)])
    case MakeDraft(d, c, a) => st.(drafts := st.drafts[d := Draft(c, a, Queued, None)])
    case MoveDraft(d, to) =>
      if d in st.drafts then st.(drafts := st.drafts[d := st.drafts[d].(status := to)]) else st
  }

  ghost function Run(st: State, steps: seq<Step>): State {
    if steps == [] then st else Apply(Run(st, steps[..|steps| - 1]), steps[|steps| - 1])
  }

  ghost predicate PossibleRun(st: State, steps: seq<Step>) {
    steps == []
    || (PossibleRun(st, steps[..|steps| - 1]) && Possible(Run(st, steps[..|steps| - 1]), steps[|steps| - 1]))
  }

  // ----- What every run keeps -----

  ghost predicate KeysAreUnique(messages: seq<Message>) {
    forall i, j :: 0 <= i < j < |messages| ==>
      messages[i].key != messages[j].key && messages[i].id != messages[j].id
  }

  ghost predicate InLog(messages: seq<Message>, id: Id, conversation: Id) {
    exists i :: 0 <= i < |messages| && messages[i].id == id && messages[i].conversation == conversation
  }

  // Exactly the used drafts have a message; it is one of their conversation, and of no other draft.
  ghost predicate LinksAreRight(st: State) {
    && (forall d: Id :: d in st.drafts ==> (st.drafts[d].status == Used <==> st.drafts[d].message.Some?))
    && (forall d: Id :: d in st.drafts && st.drafts[d].message.Some? ==>
          InLog(st.messages, st.drafts[d].message.value, st.drafts[d].conversation))
    && (forall c: Id, d: Id :: c in st.drafts && d in st.drafts && c != d && st.drafts[c].message.Some? ==>
          st.drafts[c].message != st.drafts[d].message)
  }

  // When each message was created, fewer than the limit were in its window.
  ghost predicate Paced(messages: seq<Message>) {
    messages == []
    || var before, last := messages[..|messages| - 1], messages[|messages| - 1];
       Paced(before) && CountSince(before, last.user, last.at - WINDOW_MS) < LIMIT
  }

  ghost predicate Invariant(st: State) {
    KeysAreUnique(st.messages) && LinksAreRight(st) && Paced(st.messages)
  }

  lemma {:induction false} FindKeyFinds(messages: seq<Message>, key: Id)
    ensures match FindKey(messages, key)
      case None => forall i :: 0 <= i < |messages| ==> messages[i].key != key
      case Some(m) => m.key == key && exists i :: 0 <= i < |messages| && messages[i] == m
  {
    if messages != [] && messages[0].key != key {
      FindKeyFinds(messages[1..], key);
      match FindKey(messages[1..], key)
      case None =>
        forall i | 0 <= i < |messages|
          ensures messages[i].key != key
        {
          assert i > 0 ==> messages[i] == messages[1..][i - 1];
        }
      case Some(m) =>
        var i :| 0 <= i < |messages[1..]| && messages[1..][i] == m;
        assert messages[i + 1] == m;
    }
  }

  // Of two messages with one key only one is found, so a message found stays the one found.
  lemma {:induction false} FindKeyAppends(messages: seq<Message>, m: Message, key: Id)
    ensures FindKey(messages + [m], key)
         == if FindKey(messages, key).Some? then FindKey(messages, key) else if m.key == key then Some(m) else None
  {
    if messages != [] {
      assert (messages + [m])[1..] == messages[1..] + [m];
      FindKeyAppends(messages[1..], m, key);
    } else {
      assert (messages + [m])[1..] == [];
    }
  }

  lemma {:induction false} LaterCountsLess(messages: seq<Message>, user: Id, early: int, late: int)
    requires early <= late
    ensures CountSince(messages, user, late) <= CountSince(messages, user, early)
  {
    if messages != [] {
      LaterCountsLess(messages[..|messages| - 1], user, early, late);
    }
  }

  lemma PacedGrows(messages: seq<Message>, m: Message, now: int)
    requires Paced(messages) && now <= m.at && CountSince(messages, m.user, now - WINDOW_MS) < LIMIT
    ensures Paced(messages + [m])
  {
    LaterCountsLess(messages, m.user, now - WINDOW_MS, m.at - WINDOW_MS);
    assert (messages + [m])[..|messages|] == messages;
  }

  lemma KeysStayUnique(messages: seq<Message>, m: Message)
    requires KeysAreUnique(messages) && FindKey(messages, m.key).None?
    requires forall i :: 0 <= i < |messages| ==> messages[i].id != m.id
    ensures KeysAreUnique(messages + [m])
  {
    FindKeyFinds(messages, m.key);
  }

  lemma InLogStays(messages: seq<Message>, m: Message, id: Id, conversation: Id)
    requires InLog(messages, id, conversation)
    ensures InLog(messages + [m], id, conversation)
  {
    var i :| 0 <= i < |messages| && messages[i].id == id && messages[i].conversation == conversation;
    assert (messages + [m])[i] == messages[i];
  }

  lemma LinksStayRight(st: State, m: Message, draft: Option<Id>)
    requires LinksAreRight(st) && forall i :: 0 <= i < |st.messages| ==> st.messages[i].id != m.id
    requires draft.Some? ==>
      draft.value in st.drafts && st.drafts[draft.value].status == Ready && st.drafts[draft.value].conversation == m.conversation
    ensures LinksAreRight(st.(messages := st.messages + [m], drafts := UsedFor(st.drafts, draft, m.id)))
  {
    var more, drafts := st.messages + [m], UsedFor(st.drafts, draft, m.id);
    assert more[|st.messages|] == m;
    forall d: Id | d in st.drafts && st.drafts[d].message.Some?
      ensures InLog(more, st.drafts[d].message.value, st.drafts[d].conversation)
      ensures st.drafts[d].message.value != m.id
    {
      InLogStays(st.messages, m, st.drafts[d].message.value, st.drafts[d].conversation);
    }
    assert InLog(more, m.id, m.conversation);
  }

  lemma SendKeeps(st: State, r: Request, e: Setting)
    requires Invariant(st) && Possible(st, Send(r, e))
    ensures Invariant(AfterSend(st, r, e))
  {
    if SendOutcome(st, r, e).Sent? {
      var m := NewReply(r, e);
      KeysStayUnique(st.messages, m);
      PacedGrows(st.messages, m, e.now);
      LinksStayRight(st, m, r.draft);
    }
  }

  lemma ApplyKeeps(st: State, step: Step)
    requires Invariant(st) && Possible(st, step)
    ensures Invariant(Apply(st, step))
  {
    if step.Send? {
      SendKeeps(st, step.request, step.setting);
    }
  }

  lemma {:induction false} RunKeeps(st: State, steps: seq<Step>)
    requires Invariant(st) && PossibleRun(st, steps)
    ensures Invariant(Run(st, steps))
  {
    if steps != [] {
      RunKeeps(st, steps[..|steps| - 1]);
      ApplyKeeps(Run(st, steps[..|steps| - 1]), steps[|steps| - 1]);
    }
  }

  // ----- The window -----

  function CountIn(messages: seq<Message>, user: Id, from: int, to: int): nat {
    if messages == [] then 0
    else
      var last := messages[|messages| - 1];
      CountIn(messages[..|messages| - 1], user, from, to)
      + if last.user == user && from <= last.at <= to then 1 else 0
  }

  lemma {:induction false} WindowCountsLess(messages: seq<Message>, user: Id, from: int, to: int, since: int)
    requires since <= from
    ensures CountIn(messages, user, from, to) <= CountSince(messages, user, since)
  {
    if messages != [] {
      WindowCountsLess(messages[..|messages| - 1], user, from, to, since);
    }
  }

  lemma {:induction false} PacedWindow(messages: seq<Message>, user: Id, from: int)
    requires Paced(messages)
    ensures CountIn(messages, user, from, from + WINDOW_MS) <= LIMIT
  {
    if messages != [] {
      var before, last := messages[..|messages| - 1], messages[|messages| - 1];
      PacedWindow(before, user, from);
      if last.user == user && from <= last.at <= from + WINDOW_MS {
        WindowCountsLess(before, user, from, from + WINDOW_MS, last.at - WINDOW_MS);
      }
    }
  }

  // Over any run, no user has more than the limit of messages in any closed window of a minute.
  lemma AnyMinuteIsBounded(st: State, steps: seq<Step>, user: Id, from: int)
    requires Invariant(st) && PossibleRun(st, steps)
    ensures CountIn(Run(st, steps).messages, user, from, from + WINDOW_MS) <= LIMIT
  {
    RunKeeps(st, steps);
    PacedWindow(Run(st, steps).messages, user, from);
  }

  // ----- Idempotency -----

  // A message keeps its key, a used draft its message, and a conversation its having had a message.
  ghost predicate Continues(st: State, later: State) {
    && (forall key: Id :: FindKey(st.messages, key).Some? ==> FindKey(later.messages, key) == FindKey(st.messages, key))
    && (forall d: Id :: d in st.drafts ==> d in later.drafts)
    && (forall d: Id :: d in st.drafts && st.drafts[d].status == Used ==> later.drafts[d] == st.drafts[d])
    && (forall c: Id :: c in st.anchors ==> c in later.anchors && (st.anchors[c].Some? ==> later.anchors[c].Some?))
  }

  // No draft becomes linked to a message that was there before.
  ghost predicate LinksNothingOld(st: State, later: State) {
    forall d: Id, i :: d in later.drafts && 0 <= i < |st.messages|
                       && later.drafts[d].message == Some(st.messages[i].id) ==>
      d in st.drafts && st.drafts[d].message == Some(st.messages[i].id)
  }

  lemma SendContinues(st: State, r: Request, e: Setting)
    requires Invariant(st) && Possible(st, Send(r, e))
    ensures Continues(st, AfterSend(st, r, e)) && LinksNothingOld(st, AfterSend(st, r, e))
  {
    if SendOutcome(st, r, e).Sent? {
      forall key: Id
        ensures FindKey(st.messages, key).Some? ==>
          FindKey(st.messages + [NewReply(r, e)], key) == FindKey(st.messages, key)
      {
        FindKeyAppends(st.messages, NewReply(r, e), key);
      }
    }
  }

  lemma ApplyContinues(st: State, step: Step)
    requires Invariant(st) && Possible(st, step)
    ensures Continues(st, Apply(st, step)) && LinksNothingOld(st, Apply(st, step))
  {
    if step.Send? {
      SendContinues(st, step.request, step.setting);
    }
  }

  lemma {:induction false} LogOnlyGrows(st: State, steps: seq<Step>)
    requires Invariant(st) && PossibleRun(st, steps)
    ensures st.messages <= Run(st, steps).messages
  {
    if steps != [] {
      LogOnlyGrows(st, steps[..|steps| - 1]);
    }
  }

  lemma ContinuesOn(a: State, b: State, c: State)
    requires Continues(a, b) && Continues(b, c)
    ensures Continues(a, c)
  {
  }

  lemma LinksNothingOldOn(a: State, b: State, c: State)
    requires LinksNothingOld(a, b) && LinksNothingOld(b, c) && a.messages <= b.messages
    ensures LinksNothingOld(a, c)
  {
    forall d: Id, i | d in c.drafts && 0 <= i < |a.messages| && c.drafts[d].message == Some(a.messages[i].id)
      ensures d in a.drafts && a.drafts[d].message == Some(a.messages[i].id)
    {
      assert b.messages[i] == a.messages[i];
    }
  }

  lemma {:induction false} RunContinues(st: State, steps: seq<Step>)
    requires Invariant(st) && PossibleRun(st, steps)
    ensures Continues(st, Run(st, steps)) && LinksNothingOld(st, Run(st, steps))
  {
    if steps != [] {
      var front, step := steps[..|steps| - 1], steps[|steps| - 1];
      RunContinues(st, front);
      RunKeeps(st, front);
      LogOnlyGrows(st, front);
      ApplyContinues(Run(st, front), step);
      ContinuesOn(st, Run(st, front), Run(st, steps));
      LinksNothingOldOn(st, Run(st, front), Run(st, steps));
    }
  }

  // A request that was sent, sent again at any later point, returns the same message and changes
  // nothing, as long as the channel is ready.
  lemma ReplayReturnsTheMessage(st: State, r: Request, e: Setting, steps: seq<Step>, again: Setting)
    requires Invariant(st) && Possible(st, Send(r, e)) && SendOutcome(st, r, e).Sent?
    requires PossibleRun(AfterSend(st, r, e), steps)
    requires again.connected && again.standard
    ensures var later := Run(AfterSend(st, r, e), steps);
      && SendOutcome(later, r, again) == Replayed(SendOutcome(st, r, e).message)
      && AfterSend(later, r, again) == later
  {
    var m, once := NewReply(r, e), AfterSend(st, r, e);
    var later := Run(once, steps);
    SendKeeps(st, r, e);
    SendContinues(st, r, e);
    RunContinues(once, steps);
    FindKeyAppends(st.messages, m, r.key);
    assert FindKey(later.messages, r.key) == Some(m);
    assert once.messages[|st.messages|] == m;
    LinkStays(st, r, e, later);
  }

  lemma LinkStays(st: State, r: Request, e: Setting, later: State)
    requires Invariant(st) && Possible(st, Send(r, e)) && SendOutcome(st, r, e).Sent?
    requires Continues(AfterSend(st, r, e), later) && LinksNothingOld(AfterSend(st, r, e), later)
    ensures LinkMatches(later.drafts, e.freshId, r.draft)
  {
    var once := AfterSend(st, r, e);
    assert once.messages[|st.messages|].id == e.freshId;
    FreshIsUnlinked(st, e.freshId);
  }

  lemma FreshIsUnlinked(st: State, id: Id)
    requires LinksAreRight(st) && forall i :: 0 <= i < |st.messages| ==> st.messages[i].id != id
    ensures forall d: Id :: d in st.drafts ==> st.drafts[d].message != Some(id)
  {
  }

  // A key that was used is never used for another conversation or text.
  lemma KeyIsTakenForGood(st: State, steps: seq<Step>, key: Id, r: Request, e: Setting)
    requires Invariant(st) && PossibleRun(st, steps) && FindKey(st.messages, key).Some? && r.key == key
    ensures var later := Run(st, steps);
      && !SendOutcome(later, r, e).Sent? && AfterSend(later, r, e).messages == later.messages
      && (SendOutcome(later, r, e).Replayed? ==>
            SendOutcome(later, r, e).message == FindKey(st.messages, key).value
            && r.conversation == FindKey(st.messages, key).value.conversation
            && r.text == FindKey(st.messages, key).value.text)
  {
    RunContinues(st, steps);
  }

  // ----- Drafts -----

  // Sending with a draft takes it from READY to USED and links it to the new message.
  lemma SendUsesTheDraft(st: State, r: Request, e: Setting)
    requires SendOutcome(st, r, e).Sent? && r.draft.Some?
    ensures var d, after := r.draft.value, AfterSend(st, r, e);
      && d in st.drafts && st.drafts[d].status == Ready && st.drafts[d].conversation == r.conversation
      && st.anchors[r.conversation] == Some(st.drafts[d].anchor)
      && after.drafts == st.drafts[d := st.drafts[d].(status := Used, message := Some(e.freshId))]
      && after.messages == st.messages + [NewReply(r, e)]
  {
  }

  // A used draft stays linked to its message, and no request ever sends it again.
  lemma UsedDraftIsSpent(st: State, steps: seq<Step>, d: Id, r: Request, e: Setting)
    requires Invariant(st) && PossibleRun(st, steps)
    requires d in st.drafts && st.drafts[d].status == Used && r.draft == Some(d)
    ensures var later := Run(st, steps);
      d in later.drafts && later.drafts[d] == st.drafts[d] && !SendOutcome(later, r, e).Sent?
  {
    RunContinues(st, steps);
  }

  // A refused request leaves everything as it was, but for marking its ready draft as stale when the
  // conversation or the sources have moved on.
  lemma RefusalChangesOneDraft(st: State, r: Request, e: Setting)
    requires SendOutcome(st, r, e).Rejected?
    ensures var error, after := SendOutcome(st, r, e).error, AfterSend(st, r, e);
      if error == NewMessage || error == SourceChanged
      then r.draft.Some? && r.draft.value in st.drafts && st.drafts[r.draft.value].status == Ready
           && after == st.(drafts := Staled(st.drafts, r.draft.value))
      else after == st
  {
  }
}
