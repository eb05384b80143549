// The reply service over its tables.
module ReplyStore {
  import opened Options
  import opened Texts
  import opened Replies

  class Service {
    var messages: seq<Message>
    var drafts: map<Id, Draft>
    var anchors: map<Id, Option<Id>>

    ghost function View(): State
      reads this
    {
      State(messages, drafts, anchors)
    }

    constructor (anchors: map<Id, Option<Id>>)
      ensures View() == State([], map[], anchors) && Invariant(View())
    {
      messages, drafts := [], map[];
      this.anchors := anchors;
    }

    method FindExisting(key: Id) returns (existing: Option<Message>)
      ensures existing == FindKey(messages, key)
    {
      for i := 0 to |messages|
        invariant FindKey(messages, key) == FindKey(messages[i..], key)
      {
        assert messages[i..][1..] == messages[i + 1..];
        if messages[i].key == key {
          return Some(messages[i]);
        }
      }
      existing := None;
    }

    method CountAccepted(user: Id, since: int) returns (count: nat)
      ensures count == CountSince(messages, user, since)
    {
      count := 0;
      for i := 0 to |messages|
        invariant count == CountSince(messages[..i], user, since)
      {
        assert messages[..i + 1][..i] == messages[..i];
        if messages[i].user == user && messages[i].at >= since {
          count := count + 1;
        }
      }
      assert messages[..|messages|] == messages;
    }

    // The draft that became a message; there is at most one.
    method FindLinkedDraft(message: Id) returns (linked: Option<Id>)
      requires LinksAreRight(View())
      ensures forall draft: Option<Id> :: LinkMatches(drafts, message, draft) <==> linked == draft
    {
      var rest := drafts.Keys;
      while rest != {}
        invariant rest <= drafts.Keys
        invariant forall d: Id :: d in drafts && d !in rest ==> drafts[d].message != Some(message)
      {
        var d: Id :| d in rest;
        if drafts[d].message == Some(message) {
          linked := Some(d);
          OnlyLinked(d, message);
          return;
        }
        rest := rest - {d};
      }
      linked := None;
    }

    lemma OnlyLinked(d: Id, message: Id)
      requires LinksAreRight(View()) && d in drafts && drafts[d].message == Some(message)
      ensures forall draft: Option<Id> :: LinkMatches(drafts, message, draft) <==> draft == Some(d)
    {
      forall c: Id | c in drafts && c != d
        ensures drafts[c].message != Some(message)
      {
        assert drafts[d].message != drafts[c].message;
      }
    }

    method CheckDraft(r: Request, e: Setting) returns (error: Option<Error>)
      requires r.conversation in anchors
      modifies this`drafts
      ensures error == DraftError(old(View()), r, e)
      ensures drafts == if (error == Some(NewMessage) || error == Some(SourceChanged)) && r.draft.Some?
                           && r.draft.value in old(drafts)
                        then Staled(old(drafts), r.draft.value) else old(drafts)
    {
      if r.draft.None? {
        return None;
      }
      var d := r.draft.value;
      if !e.draftsEnabled {
        return Some(DraftsDisabled);
      }
      if d !in drafts || drafts[d].conversation != r.conversation || drafts[d].status != Ready {
        return Some(DraftNotReady);
      }
      if Some(drafts[d].anchor) != anchors[r.conversation] {
        drafts := drafts[d := drafts[d].(status := Stale)];
        return Some(NewMessage);
      }
      if !e.sourcesCurrent {
        drafts := drafts[d := drafts[d].(status := Stale)];
        return Some(SourceChanged);
      }
      error := None;
    }

    method Send(user: Id, conversation: Id, text: string, key: Id, draft: Option<Id>, e: Setting)
        returns (outcome: Outcome)
      requires Invariant(View())
      requires Possible(View(), Replies.Send(Request(user, conversation, Trim(text), key, draft), e))
      modifies this
      ensures var r := Request(user, conversation, Trim(text), key, draft);
        outcome == SendOutcome(old(View()), r, e) && View() == AfterSend(old(View()), r, e)
      ensures Invariant(View())
    {
      var r := Request(user, conversation, Trim(text), key, draft);
      SendKeeps(View(), r, e);
      if conversation !in anchors {
        return Rejected(NotFound);
      }
      if draft.Some? && anchors[conversation].None? {
        return Rejected(NoInbound);
      }
      if !e.connected {
        return Rejected(NotConnected);
      }
      if draft.Some? && !e.standard {
        return Rejected(NotStandard);
      }
      var existing := FindExisting(key);
      if existing.Some? {
        var message := existing.value;
        if message.conversation != conversation || message.text != r.text {
          return Rejected(KeyUsed);
        }
        var linked := FindLinkedDraft(message.id);
        return if linked != draft then Rejected(KeyUsedForAnotherReply) else Replayed(message);
      }
      var draftError := CheckDraft(r, e);
      if draftError.Some? {
        return Rejected(draftError.value);
      }
      var acceptedInWindow := CountAccepted(user, e.now - WINDOW_MS);
      if acceptedInWindow >= LIMIT {
        return Rejected(RateLimited);
      }
      var message := Message(e.freshId, conversation, user, r.text, key, e.at);
      messages := messages + [message];
      if draft.Some? {
        drafts := drafts[draft.value := drafts[draft.value].(status := Used, message := Some(message.id))];
      }
      outcome := Sent(message);
    }
  }
}
