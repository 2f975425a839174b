/** Exactly which checkpoints a thread accepts, stated on the messages and items themselves. */
module ConversationPublication {
  import opened Basics
  import opened ConversationMemory
  import opened ConversationSafety
  import opened ConversationHistory

  // ------------------------------------------------------------------------
  // What a publication asks for
  // ------------------------------------------------------------------------

  ghost predicate DistinctIds(messages: seq<Message>) {
    forall i, k :: 0 <= i < k < |messages| ==> messages[i].id != messages[k].id
  }

  function LastCheckpoint(t: Thread): Option<Checkpoint> {
    if t.checkpoints == [] then None else Some(t.checkpoints[|t.checkpoints| - 1])
  }

  /** A correction or resolution that rests on user messages only, each later than every
      message the corrected item rests on. */
  ghost predicate CorrectsLater(u: Item, corrected: Item) {
    && (u.kind == Correction || u.kind == Resolution)
    && (forall i, k :: 0 <= i < |u.sources| && 0 <= k < |corrected.sources| ==>
          u.sources[i].role == User && u.sources[i].sequence > corrected.sources[k].sequence)
  }

  ghost predicate SupersededWithin(items: seq<Item>, corrected: Item, by_: Option<string>) {
    exists u :: u in items && by_ == Some(u.id) && CorrectsLater(u, corrected)
  }

  /** The prior item is still there; only a missing supersession may have been filled in. */
  ghost predicate CarriedOver(prior: Item, items: seq<Item>) {
    exists item :: item in items && Carries(prior, item, items)
  }

  ghost predicate Carries(prior: Item, item: Item, items: seq<Item>) {
    && item.id == prior.id && item.kind == prior.kind && item.subject == prior.subject
    && item.statement == prior.statement && item.sources == prior.sources
    && (item.supersededBy == prior.supersededBy
        || (prior.supersededBy == None && SupersededWithin(items, prior, item.supersededBy)))
  }

  /** The source names, exactly, a message of the range, and quotes its words. */
  ghost predicate QuotesWithin(item: Item, q: Support, messages: seq<Message>, from: int, through: int) {
    && 1 <= from <= q.sequence <= through <= |messages|
    && var m := messages[q.sequence - 1];
    && q.messageId == m.id && q.role == m.role && q.recordedAt == m.createdAt && Includes(m.originalText, q.quote)
    && (m.role == User || item.kind == Context || item.kind == AssistantProposal)
  }

  ghost predicate NewlyAllowed(item: Item, items: seq<Item>, messages: seq<Message>, from: int, through: int) {
    && (item.supersededBy != None ==> SupersededWithin(items, item, item.supersededBy))
    && (forall i :: 0 <= i < |item.sources| ==> QuotesWithin(item, item.sources[i], messages, from, through))
  }

  ghost predicate DigestOf(digest: seq<Digested>, messages: seq<Message>, from: int, through: int)
    requires 1 <= from <= through <= |messages|
  {
    && |digest| == through - from + 1
    && (forall i :: 0 <= i < |digest| ==>
          var m := messages[from - 1 + i]; digest[i] == Digested(m.id, m.sequence, m.role, m.originalText))
  }

  ghost predicate IsNew(item: Item, priors: seq<Item>) {
    forall p :: p in priors ==> p.id != item.id
  }

  /** The checkpoint covers the next 1 to 200 messages, as they are, keeps every item there
      is, and adds items that those messages support. */
  ghost predicate Supported(t: Thread, c: Checkpoint, priors: seq<Item>) {
    && 1 <= c.fromSequence <= c.throughSequence <= |t.messages| && c.throughSequence - c.fromSequence < 200
    && DigestOf(c.sourceDigest, t.messages, c.fromSequence, c.throughSequence)
    && (forall i, k :: 0 <= i < k < |c.items| ==> c.items[i].id != c.items[k].id)
    && (forall p :: p in priors ==> CarriedOver(p, c.items))
    && (forall item :: item in c.items && IsNew(item, priors) ==>
          NewlyAllowed(item, c.items, t.messages, c.fromSequence, c.throughSequence))
  }

  // ------------------------------------------------------------------------
  // The searches find what is there
  // ------------------------------------------------------------------------

  lemma {:induction false} IncludesMeansOccurs(text: string, quote: string, offset: nat, at: nat)
    requires offset <= at && at + |quote| <= |text| && text[at..at + |quote|] == quote
    ensures OccursFrom(text, quote, offset)
    decreases at - offset
  {
    if offset < at {
      IncludesMeansOccurs(text, quote, offset + 1, at);
    }
  }

  lemma OccursExactly(text: string, quote: string)
    ensures OccursFrom(text, quote, 0) <==> Includes(text, quote)
  {
    if OccursFrom(text, quote, 0) {
      OccursMeansIncludes(text, quote, 0);
    }
    if before, behind :| text == before + quote + behind {
      assert text[|before|..|before| + |quote|] == quote;
      IncludesMeansOccurs(text, quote, 0, |before|);
    }
  }

  lemma {:induction false} CorrectionFound(items: seq<Item>, u: Item, by_: Option<string>)
    requires DistinctItems(items) && u in items && Corrects(u, by_)
    ensures FindCorrection(items, by_) == Some(u)
  {
    if !Corrects(items[0], by_) {
      assert u in items[1..];
      CorrectionFound(items[1..], u, by_);
    } else {
      SameItem(items, items[0], u);
    }
  }

  lemma LaterExactly(u: Item, corrected: Item)
    requires ItemParses(corrected)
    ensures (u.kind == Correction || u.kind == Resolution) && LaterUserSources(u, corrected) <==> CorrectsLater(u, corrected)
  {
    NewestIsMax(corrected.sources);
    assert SupportParses(corrected.sources[0]);
    if CorrectsLater(u, corrected) {
      var k :| 0 <= k < |corrected.sources| && corrected.sources[k].sequence == Newest(corrected.sources);
    }
  }

  lemma SupersessionExactly(items: seq<Item>, corrected: Item, by_: Option<string>)
    requires DistinctItems(items) && ItemParses(corrected)
    ensures SupersessionFault(items, corrected, by_).None? <==> SupersededWithin(items, corrected, by_)
  {
    if SupersessionFault(items, corrected, by_).None? {
      LaterExactly(FindCorrection(items, by_).value, corrected);
    }
    if u :| u in items && by_ == Some(u.id) && CorrectsLater(u, corrected) {
      LaterExactly(u, corrected);
      CorrectionFound(items, u, by_);
    }
  }

  lemma RetainedExactly(prior: Item, items: seq<Item>)
    requires DistinctItems(items) && ItemParses(prior)
    ensures RetainedFault(prior, items).None? <==> CarriedOver(prior, items)
  {
    var found := FindItem(items, prior.id);
    if found.Some? {
      SupersessionExactly(items, prior, found.value.supersededBy);
      if RetainedFault(prior, items).None? {
        assert Carries(prior, found.value, items);
      }
    }
    if item :| item in items && Carries(prior, item, items) {
      var k :| 0 <= k < |items| && items[k] == item;
      SameItem(items, item, found.value);
    }
  }

  lemma {:induction false} AllRetainedExactly(priors: seq<Item>, items: seq<Item>)
    requires DistinctItems(items) && forall i :: 0 <= i < |priors| ==> ItemParses(priors[i])
    ensures RetainedFaults(priors, items).None? <==> forall p :: p in priors ==> CarriedOver(p, items)
  {
    if priors != [] {
      RetainedExactly(priors[0], items);
      AllRetainedExactly(priors[1..], items);
      assert forall p :: p in priors <==> p == priors[0] || p in priors[1..];
    }
  }

  lemma {:induction false} MessageFound(batch: seq<Message>, m: Message)
    requires DistinctIds(batch) && m in batch
    ensures FindMessage(batch, m.id) == Some(m)
  {
    if batch[0] != m {
      var k :| 0 < k < |batch| && batch[k] == m;
      assert m in batch[1..];
      MessageFound(batch[1..], m);
    }
  }

  lemma SupportExactly(item: Item, q: Support, messages: seq<Message>, from: int, through: int)
    requires Contiguous(messages) && DistinctIds(messages) && 1 <= from <= through <= |messages|
    ensures SupportFault(item, q, messages[from - 1..through]).None? <==> QuotesWithin(item, q, messages, from, through)
  {
    var batch := messages[from - 1..through];
    if SupportFault(item, q, batch).None? {
      SupportedQuotes(item, q, messages, from, through, batch, FindMessage(batch, q.messageId).value);
    }
    if QuotesWithin(item, q, messages, from, through) {
      var m := messages[q.sequence - 1];
      assert batch[q.sequence - from] == m;
      MessageFound(batch, m);
      OccursExactly(m.originalText, q.quote);
    }
  }

  lemma SupportedQuotes(item: Item, q: Support, messages: seq<Message>, from: int, through: int, batch: seq<Message>, m: Message)
    requires Contiguous(messages) && 1 <= from <= through <= |messages| && batch == messages[from - 1..through] && m in batch
    requires m.id == q.messageId && m.role == q.role && m.sequence == q.sequence && m.createdAt == q.recordedAt
    requires OccursFrom(m.originalText, q.quote, 0)
    requires m.role == User || item.kind == Context || item.kind == AssistantProposal
    ensures QuotesWithin(item, q, messages, from, through)
  {
    OccursExactly(m.originalText, q.quote);
    var k :| 0 <= k < |batch| && batch[k] == m;
    assert messages[from - 1 + k] == m;
  }

  lemma {:induction false} SupportsExactly(item: Item, sources: seq<Support>, messages: seq<Message>, from: int, through: int)
    requires Contiguous(messages) && DistinctIds(messages) && 1 <= from <= through <= |messages|
    ensures SupportFaults(item, sources, messages[from - 1..through]).None? <==>
      forall i :: 0 <= i < |sources| ==> QuotesWithin(item, sources[i], messages, from, through)
  {
    if sources != [] {
      SupportExactly(item, sources[0], messages, from, through);
      SupportsExactly(item, sources[1..], messages, from, through);
      forall i | 0 < i < |sources| ensures sources[i] == sources[1..][i - 1] {
      }
      assert (forall i :: 0 <= i < |sources| ==> QuotesWithin(item, sources[i], messages, from, through)) ==>
        forall i :: 0 <= i < |sources[1..]| ==> QuotesWithin(item, sources[1..][i], messages, from, through);
    }
  }

  lemma NewItemExactly(item: Item, items: seq<Item>, messages: seq<Message>, from: int, through: int)
    requires Contiguous(messages) && DistinctIds(messages) && 1 <= from <= through <= |messages|
    requires DistinctItems(items) && ItemParses(item)
    ensures NewFault(item, items, messages[from - 1..through]).None? <==> NewlyAllowed(item, items, messages, from, through)
  {
    SupersessionExactly(items, item, item.supersededBy);
    SupportsExactly(item, item.sources, messages, from, through);
  }

  lemma {:induction false} NewItemsExactly(candidates: seq<Item>, priors: seq<Item>, items: seq<Item>, messages: seq<Message>,
                                           from: int, through: int)
    requires Contiguous(messages) && DistinctIds(messages) && 1 <= from <= through <= |messages|
    requires DistinctItems(items) && forall i :: 0 <= i < |candidates| ==> ItemParses(candidates[i])
    ensures NewFaults(candidates, Ids(priors), items, messages[from - 1..through]).None? <==>
      forall item :: item in candidates && IsNew(item, priors) ==> NewlyAllowed(item, items, messages, from, through)
  {
    if candidates != [] {
      NewItemExactly(candidates[0], items, messages, from, through);
      NewItemsExactly(candidates[1..], priors, items, messages, from, through);
      assert forall item :: item in candidates <==> item == candidates[0] || item in candidates[1..];
      assert IsNew(candidates[0], priors) <==> candidates[0].id !in Ids(priors);
    }
  }

  // ------------------------------------------------------------------------
  // The range and the digest
  // ------------------------------------------------------------------------

  lemma CoveredExactly(t: Thread, c: Checkpoint)
    requires Contiguous(t.messages) && 1 <= c.fromSequence <= c.throughSequence
    ensures |Covered(t, c)| == c.throughSequence - c.fromSequence + 1 && |Covered(t, c)| <= MAX_BATCH <==>
      c.throughSequence <= |t.messages| && c.throughSequence - c.fromSequence < 200
    ensures c.throughSequence <= |t.messages| && c.throughSequence - c.fromSequence < 200 ==>
      Covered(t, c) == t.messages[c.fromSequence - 1..c.throughSequence]
  {
    BetweenIsSlice(t.messages, 1, c.fromSequence, c.throughSequence);
  }

  lemma DigestExactly(digest: seq<Digested>, messages: seq<Message>, from: int, through: int)
    requires 1 <= from <= through <= |messages|
    ensures SourceDigest(messages[from - 1..through]) == digest <==> DigestOf(digest, messages, from, through)
  {
    var batch := messages[from - 1..through];
    forall i | 0 <= i < |batch|
      ensures SourceDigest(batch)[i]
           == Digested(messages[from - 1 + i].id, messages[from - 1 + i].sequence, messages[from - 1 + i].role,
                       messages[from - 1 + i].originalText)
    {
      assert batch[i] == messages[from - 1 + i];
    }
  }

  lemma ContentExactly(t: Thread, c: Checkpoint, previous: Option<Checkpoint>)
    requires Contiguous(t.messages) && DistinctIds(t.messages) && Parses(c) && c.fromSequence <= c.throughSequence
    requires forall i :: 0 <= i < |PriorItems(previous)| ==> ItemParses(PriorItems(previous)[i])
    ensures ContentFault(c, previous, Covered(t, c)).None? <==> Supported(t, c, PriorItems(previous))
  {
    CoveredExactly(t, c);
    if c.throughSequence <= |t.messages| && c.throughSequence - c.fromSequence < 200 {
      DigestExactly(c.sourceDigest, t.messages, c.fromSequence, c.throughSequence);
      if DistinctItems(c.items) {
        ItemsExactly(t.messages, c, PriorItems(previous));
      }
    }
  }

  lemma ItemsExactly(messages: seq<Message>, c: Checkpoint, priors: seq<Item>)
    requires Contiguous(messages) && DistinctIds(messages) && 1 <= c.fromSequence <= c.throughSequence <= |messages|
    requires Parses(c) && DistinctItems(c.items) && forall i :: 0 <= i < |priors| ==> ItemParses(priors[i])
    ensures RetainedFaults(priors, c.items).None? <==> forall p :: p in priors ==> CarriedOver(p, c.items)
    ensures NewFaults(c.items, Ids(priors), c.items, messages[c.fromSequence - 1..c.throughSequence]).None? <==>
      forall item :: item in c.items && IsNew(item, priors) ==>
        NewlyAllowed(item, c.items, messages, c.fromSequence, c.throughSequence)
  {
    AllRetainedExactly(priors, c.items);
    NewItemsExactly(c.items, priors, c.items, messages, c.fromSequence, c.throughSequence);
  }

  // ------------------------------------------------------------------------
  // Publications
  // ------------------------------------------------------------------------

  /** A sound thread takes a checkpoint if and only if it continues the newest one, is
      supported by the messages it covers, and has an id of its own; one that continues
      another checkpoint is answered with `false`. */
  lemma AcceptedExactly(t: Thread, c: Checkpoint, used: set<string>)
    requires ThreadSound(t, used) && DistinctIds(t.messages) && Parses(c)
    ensures var r := PublishTo(t, c, used); var newest := LastCheckpoint(t);
      && (r == Ok(None) <==> c.parentId != if newest == None then None else Some(newest.value.id))
      && (r.Ok? && r.value.Some? <==>
            && c.parentId == (if newest == None then None else Some(newest.value.id))
            && c.fromSequence == (if newest == None then 1 else newest.value.throughSequence + 1)
            && Supported(t, c, if newest == None then [] else newest.value.items)
            && c.id !in used)
  {
    Rising(t, used);
    LatestOfRising(t.checkpoints);
    var newest := LastCheckpoint(t);
    if newest.Some? {
      assert SoundAt(t, |t.checkpoints| - 1);
      assert forall i :: 0 <= i < |newest.value.items| ==> ItemSound(newest.value.items[i], newest.value.items, t.messages);
    }
    if c.fromSequence <= c.throughSequence {
      ContentExactly(t, c, newest);
    }
  }

  // ------------------------------------------------------------------------
  // Message ids in every run
  // ------------------------------------------------------------------------

  ghost predicate IdsKnown(s: Store) {
    forall id :: id in s.threads ==>
      DistinctIds(s.threads[id].messages) && forall m :: m in s.threads[id].messages ==> m.id in s.messageIds
  }

  lemma AppendKeepsIds(s: Store, scope: Scope, id: string, role: Role, text: string, key: string, now: int)
    requires IdsKnown(s) && AppendMessage(s, scope, id, role, text, key, now).Ok?
    ensures IdsKnown(AppendMessage(s, scope, id, role, text, key, now).value.0)
  {
    var (s', a) := AppendMessage(s, scope, id, role, text, key, now).value;
    if !a.duplicate {
      var before := s.threads[scope.threadId].messages;
      forall i | 0 <= i < |before| ensures before[i].id != id {
        assert before[i] in before;
      }
    }
  }

  lemma {:induction false} IdsKnownInEveryRun(ops: seq<Op>)
    ensures IdsKnown(Run(EMPTY, ops))
  {
    if ops != [] {
      var before, op := Run(EMPTY, ops[..|ops| - 1]), ops[|ops| - 1];
      IdsKnownInEveryRun(ops[..|ops| - 1]);
      if op.AppendOp? && AppendMessage(before, op.scope, op.id, op.role, op.text, op.key, op.now).Ok? {
        AppendKeepsIds(before, op.scope, op.id, op.role, op.text, op.key, op.now);
      }
    }
  }

  /** The texts, quotes, items and sources of the checkpoint are as many and as long as they
      may be, and its sequences are positive. */
  ghost predicate Described(c: Checkpoint) {
    && c.fromSequence >= 1 && c.throughSequence >= 1 && |c.items| <= 2048 && |c.narrative| <= 16_000
    && forall item :: item in c.items ==>
         && 0 < |item.subject| <= 240 && 0 < |item.statement| <= 2000 && 0 < |item.sources| <= 8
         && forall q :: q in item.sources ==> q.sequence > 0 && 0 < |q.quote| <= 4096
  }

  lemma DescribedExactly(c: Checkpoint)
    ensures Parses(c) <==> Described(c)
  {
    if Described(c) {
      forall i | 0 <= i < |c.items| ensures ItemParses(c.items[i]) {
        assert c.items[i] in c.items;
        assert forall k :: 0 <= k < |c.items[i].sources| ==> c.items[i].sources[k] in c.items[i].sources;
      }
    }
    if Parses(c) {
      forall item | item in c.items ensures ItemParses(item) {
        var i :| 0 <= i < |c.items| && c.items[i] == item;
      }
    }
  }

  /** After any run, a checkpoint is published if and only if it is well-formed, its owner is
      active, it names a thread of that owner, and the thread takes it. */
  lemma PublishedExactly(ops: seq<Op>, c: Checkpoint)
    ensures var s := Run(EMPTY, ops); var r := PublishCheckpoint(s, c);
      r.Ok? && r.value.1 <==>
        && Described(c) && (c.scope.tenantId, c.scope.ownerId) in s.owners
        && c.scope.threadId in s.threads && s.threads[c.scope.threadId].scope == c.scope
        && var t := s.threads[c.scope.threadId]; var newest := LastCheckpoint(t);
        && c.parentId == (if newest == None then None else Some(newest.value.id))
        && c.fromSequence == (if newest == None then 1 else newest.value.throughSequence + 1)
        && Supported(t, c, if newest == None then [] else newest.value.items)
        && c.id !in s.checkpointIds
  {
    var s := Run(EMPTY, ops);
    SoundInEveryRun(ops);
    IdsKnownInEveryRun(ops);
    DescribedExactly(c);
    if Parses(c) && c.scope.threadId in s.threads {
      AcceptedExactly(s.threads[c.scope.threadId], c, s.checkpointIds);
    }
  }
}
