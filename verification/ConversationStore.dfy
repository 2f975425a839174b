/** The conversation transactions as they run: early aborts in nested loops over the
    checkpoint's items, then the inserts. */
module ConversationStore {
  import opened Basics
  import opened ConversationMemory

  class ConversationTables {
    var owners: set<(string, string)>
    var threads: map<string, Thread>
    var messageIds: set<string>
    var checkpointIds: set<string>

    function View(): Store
      reads this
    {
      Store(owners, threads, messageIds, checkpointIds)
    }

    constructor ()
      ensures View() == EMPTY
    {
      owners, threads, messageIds, checkpointIds := {}, map[], {}, {};
    }

    method LastSequence(messages: seq<Message>) returns (last: int)
      ensures last == MaxSequence(messages)
    {
      last := 0;
      for i := 0 to |messages|
        invariant last == MaxSequence(messages[..i])
      {
        assert messages[..i + 1][..i] == messages[..i];
        if messages[i].sequence > last {
          last := messages[i].sequence;
        }
      }
      assert messages[..|messages|] == messages;
    }

    method Append(scope: Scope, id: string, role: Role, text: string, key: string, now: int) returns (r: Result<Appended, Error>)
      modifies this
      ensures var spec := AppendMessage(old(View()), scope, id, role, text, key, now);
        match spec
        case Err(e) => r == Err(e) && View() == old(View())
        case Ok((s, a)) => r == Ok(a) && View() == s
    {
      if Blank(text) || Utf8Length(text) > MAX_BYTES { return Err(MessageInvalid); }
      if scope.threadId !in threads || threads[scope.threadId].scope != scope { return Err(ThreadNotFound); }
      var t := threads[scope.threadId];
      var existing := FindKey(t.messages, key);
      if existing.Some? { return Ok(Appended(t.messages[existing.value], true)); }
      var last := LastSequence(t.messages);
      var m := Message(id, last + 1, role, text, StoredKey(key), now);
      if FindKey(t.messages, m.key).Some? || id in messageIds { return Err(InsertRejected); }
      threads := threads[scope.threadId := t.(messages := t.messages + [m], revision := t.revision + 1)];
      messageIds := messageIds + {id};
      r := Ok(Appended(m, false));
    }

    method CheckRetained(priors: seq<Item>, items: seq<Item>) returns (fault: Option<Error>)
      ensures fault == RetainedFaults(priors, items)
    {
      for i := 0 to |priors|
        invariant RetainedFaults(priors[i..], items) == RetainedFaults(priors, items)
      {
        var prior := priors[i];
        assert priors[i..][1..] == priors[i + 1..];
        var retained := FindItem(items, prior.id);
        if retained.None? || retained.value.(supersededBy := prior.supersededBy) != prior {
          return Some(RetainedItemChanged);
        }
        if prior.supersededBy.Some? && retained.value.supersededBy != prior.supersededBy {
          return Some(SupersessionChanged);
        }
        if retained.value.supersededBy != prior.supersededBy {
          var correction := FindCorrection(items, retained.value.supersededBy);
          if correction.None? || !LaterUserSources(correction.value, prior) { return Some(SupersessionInvalid); }
        }
      }
      fault := None;
    }

    method CheckSources(item: Item, messages: seq<Message>) returns (fault: Option<Error>)
      ensures fault == SupportFaults(item, item.sources, messages)
    {
      for i := 0 to |item.sources|
        invariant SupportFaults(item, item.sources[i..], messages) == SupportFaults(item, item.sources, messages)
      {
        var support := item.sources[i];
        assert item.sources[i..][1..] == item.sources[i + 1..];
        var m := FindMessage(messages, support.messageId);
        if m.None? || m.value.role != support.role || m.value.sequence != support.sequence
           || m.value.createdAt != support.recordedAt || !OccursFrom(m.value.originalText, support.quote, 0)
        {
          return Some(QuoteInvalid);
        }
        if item.kind != Context && item.kind != AssistantProposal && m.value.role != User {
          return Some(AssistantPromotion);
        }
      }
      fault := None;
    }

    method CheckNew(items: seq<Item>, oldIds: set<string>, messages: seq<Message>) returns (fault: Option<Error>)
      ensures fault == NewFaults(items, oldIds, items, messages)
    {
      for i := 0 to |items|
        invariant NewFaults(items[i..], oldIds, items, messages) == NewFaults(items, oldIds, items, messages)
      {
        var item := items[i];
        assert items[i..][1..] == items[i + 1..];
        if item.id !in oldIds {
          if item.supersededBy.Some? {
            var correction := FindCorrection(items, item.supersededBy);
            if correction.None? || !LaterUserSources(correction.value, item) { return Some(SupersessionInvalid); }
          }
          var sourceFault := CheckSources(item, messages);
          if sourceFault.Some? { return sourceFault; }
        }
      }
      fault := None;
    }

    method CheckContent(c: Checkpoint, previous: Option<Checkpoint>, messages: seq<Message>) returns (fault: Option<Error>)
      ensures fault == ContentFault(c, previous, messages)
    {
      if |messages| != c.throughSequence - c.fromSequence + 1 || |messages| > MAX_BATCH
         || SourceDigest(messages) != c.sourceDigest
      {
        return Some(SourceChanged);
      }
      if |Ids(c.items)| != |c.items| {
        DistinctByCount(c.items);
        return Some(DuplicateItem);
      }
      DistinctByCount(c.items);
      fault := CheckRetained(PriorItems(previous), c.items);
      if fault.None? {
        fault := CheckNew(c.items, Ids(PriorItems(previous)), messages);
      }
    }

    method Publish(c: Checkpoint) returns (r: Result<bool, Error>)
      modifies this
      ensures var spec := PublishCheckpoint(old(View()), c);
        match spec
        case Err(e) => r == Err(e) && View() == old(View())
        case Ok((s, published)) => r == Ok(published) && View() == s
    {
      if !Parses(c) { return Err(SchemaInvalid); }
      if (c.scope.tenantId, c.scope.ownerId) !in owners { return Err(OwnerNotActive); }
      if c.scope.threadId !in threads || threads[c.scope.threadId].scope != c.scope { return Err(ThreadNotFound); }
      var t := threads[c.scope.threadId];
      var previous := Latest(t.checkpoints);
      if (if previous.Some? then Some(previous.value.id) else None) != c.parentId { return Ok(false); }
      if c.fromSequence != PriorThrough(previous) + 1 { return Err(CheckpointGap); }
      var fault := CheckContent(c, previous, Covered(t, c));
      if fault.Some? { return Err(fault.value); }
      if c.throughSequence < c.fromSequence || c.id in checkpointIds { return Err(InsertRejected); }
      threads := threads[c.scope.threadId :=
        t.(checkpoints := t.checkpoints + [c], summary := Some(c.narrative), summaryThrough := c.throughSequence)];
      checkpointIds := checkpointIds + {c.id};
      r := Ok(true);
    }
  }

  lemma IdsSnoc(init: seq<Item>, last: Item)
    ensures Ids(init + [last]) == Ids(init) + {last.id}
  {
    assert forall x :: x in init ==> x in init + [last];
    assert last in init + [last];
  }

  lemma DistinctSnoc(init: seq<Item>, last: Item)
    ensures DistinctItems(init + [last]) <==> DistinctItems(init) && last.id !in Ids(init)
  {
    var items := init + [last];
    assert forall i :: 0 <= i < |init| ==> items[i] == init[i] && init[i] in init;
    assert items[|init|] == last;
    if last.id in Ids(init) {
      var item :| item in init && item.id == last.id;
      var i :| 0 <= i < |init| && init[i] == item;
      assert items[i].id == items[|init|].id;
    }
    if DistinctItems(items) {
      forall i, k | 0 <= i < k < |init| ensures init[i].id != init[k].id {
        assert items[i].id != items[k].id;
      }
    }
  }

  /** A set of the items' ids is as large as the list exactly when no id repeats. */
  lemma {:induction false} DistinctByCount(items: seq<Item>)
    ensures |Ids(items)| <= |items|
    ensures |Ids(items)| == |items| <==> DistinctItems(items)
  {
    if items == [] {
      assert Ids(items) == {};
    } else {
      var init, last := items[..|items| - 1], items[|items| - 1];
      DistinctByCount(init);
      assert items == init + [last];
      IdsSnoc(init, last);
      DistinctSnoc(init, last);
      if last.id in Ids(init) {
        assert Ids(init) + {last.id} == Ids(init);
      }
    }
  }
}
