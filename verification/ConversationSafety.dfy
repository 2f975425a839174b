/** What every run of appends and publications keeps: one unforked chain of checkpoints
    whose items quote real messages, are never dropped, and are superseded in order. */
module ConversationSafety {
  import opened Basics
  import opened ConversationMemory

  // ------------------------------------------------------------------------
  // Messages
  // ------------------------------------------------------------------------

  ghost predicate Contiguous(messages: seq<Message>) {
    forall k :: 0 <= k < |messages| ==> messages[k].sequence == k + 1
  }

  lemma {:induction false} MaxOfContiguous(messages: seq<Message>)
    requires Contiguous(messages)
    ensures MaxSequence(messages) == |messages|
  {
    if messages != [] {
      MaxOfContiguous(messages[..|messages| - 1]);
    }
  }

  /** Rows numbered from `start` up, seen through a sequence range, are a slice. */
  lemma {:induction false} BetweenIsSlice(messages: seq<Message>, start: int, from: int, through: int)
    requires forall k :: 0 <= k < |messages| ==> messages[k].sequence == start + k
    requires start <= from && from - 1 <= through
    ensures Between(messages, from, through) == Slice(messages, from - start, through + 1 - start)
    decreases |messages|
  {
    if messages != [] {
      var rest := messages[1..];
      if from == start {
        if through < start {
          NothingBetween(messages, start, from, through);
        } else {
          BetweenIsSlice(rest, start + 1, from + 1, through);
          BetweenFromEarlier(rest, start + 1, from, through);
          SliceFromHead(messages, through + 1 - start);
        }
      } else {
        BetweenIsSlice(rest, start + 1, from, through);
        SliceOfTail(messages, from - start, through + 1 - start);
      }
    }
  }

  /** The part of a sequence between two offsets, as far as it reaches. */
  function Slice(messages: seq<Message>, a: int, b: int): seq<Message>
    requires 0 <= a <= b
  {
    var lo := if a < |messages| then a else |messages|;
    var hi := if b < |messages| then b else |messages|;
    messages[lo..hi]
  }

  lemma SliceFromHead(messages: seq<Message>, b: int)
    requires messages != [] && b >= 1
    ensures Slice(messages, 0, b) == [messages[0]] + Slice(messages[1..], 0, b - 1)
  {
    var hi := if b < |messages| then b else |messages|;
    assert messages[..hi] == [messages[0]] + messages[1..hi];
    assert messages[1..][..hi - 1] == messages[1..hi];
  }

  lemma SliceOfTail(messages: seq<Message>, a: int, b: int)
    requires messages != [] && 1 <= a <= b
    ensures Slice(messages, a, b) == Slice(messages[1..], a - 1, b - 1)
  {
    var lo := if a < |messages| then a else |messages|;
    var hi := if b < |messages| then b else |messages|;
    PartOfTail(messages, messages[1..], lo, hi);
  }

  lemma PartOfTail(messages: seq<Message>, rest: seq<Message>, lo: nat, hi: nat)
    requires messages != [] && rest == messages[1..]
    requires 1 <= lo <= hi <= |messages|
    ensures rest[lo - 1..hi - 1] == messages[lo..hi]
  {
    forall k | 0 <= k < hi - lo ensures rest[lo - 1..hi - 1][k] == messages[lo..hi][k] {
      assert rest[lo - 1..hi - 1][k] == rest[lo - 1 + k] == messages[lo + k];
    }
  }

  lemma {:induction false} NothingBetween(messages: seq<Message>, start: int, from: int, through: int)
    requires forall k :: 0 <= k < |messages| ==> messages[k].sequence == start + k
    requires through < start
    ensures Between(messages, from, through) == []
  {
    if messages != [] {
      NothingBetween(messages[1..], start + 1, from, through);
    }
  }

  lemma {:induction false} BetweenFromEarlier(messages: seq<Message>, start: int, from: int, through: int)
    requires forall k :: 0 <= k < |messages| ==> messages[k].sequence == start + k
    requires from < start
    ensures Between(messages, from, through) == Between(messages, from + 1, through)
  {
    if messages != [] {
      BetweenFromEarlier(messages[1..], start + 1, from, through);
    }
  }

  // ------------------------------------------------------------------------
  // Grounding
  // ------------------------------------------------------------------------

  ghost predicate Includes(text: string, quote: string) {
    exists before, behind :: text == before + quote + behind
  }

  lemma {:induction false} OccursMeansIncludes(text: string, quote: string, offset: nat)
    requires offset <= |text| && OccursFrom(text, quote, offset)
    ensures Includes(text, quote)
    decreases |text| - offset
  {
    if text[offset..offset + |quote|] == quote {
      assert text == text[..offset] + quote + text[offset + |quote|..];
    } else {
      OccursMeansIncludes(text, quote, offset + 1);
    }
  }

  predicate UserOnly(kind: Kind) {
    kind != Context && kind != AssistantProposal
  }

  /** The support names a message that exists, exactly, and quotes its words. */
  ghost predicate Grounded(item: Item, support: Support, messages: seq<Message>) {
    && 1 <= support.sequence <= |messages|
    && var m := messages[support.sequence - 1];
    && m.id == support.messageId && m.role == support.role && m.createdAt == support.recordedAt
    && Includes(m.originalText, support.quote)
    && (UserOnly(item.kind) ==> m.role == User)
  }

  ghost predicate ItemGrounded(item: Item, messages: seq<Message>) {
    forall i :: 0 <= i < |item.sources| ==> Grounded(item, item.sources[i], messages)
  }

  lemma SupportIsGrounded(item: Item, support: Support, messages: seq<Message>, batch: seq<Message>)
    requires Contiguous(messages) && SupportFault(item, support, batch).None?
    requires forall m :: m in batch ==> m in messages
    ensures Grounded(item, support, messages)
  {
    var m := FindMessage(batch, support.messageId).value;
    assert m in messages;
    OccursMeansIncludes(m.originalText, support.quote, 0);
  }

  lemma {:induction false} SupportsAreGrounded(item: Item, sources: seq<Support>, messages: seq<Message>, batch: seq<Message>)
    requires Contiguous(messages) && SupportFaults(item, sources, batch).None?
    requires forall m :: m in batch ==> m in messages
    ensures forall i :: 0 <= i < |sources| ==> Grounded(item, sources[i], messages)
  {
    if sources != [] {
      SupportIsGrounded(item, sources[0], messages, batch);
      SupportsAreGrounded(item, sources[1..], messages, batch);
    }
  }

  // ------------------------------------------------------------------------
  // Supersession
  // ------------------------------------------------------------------------

  ghost predicate SupersededBy(item: Item, correction: Item) {
    Corrects(correction, item.supersededBy) && LaterUserSources(correction, item)
  }

  ghost predicate SupersededSoundly(item: Item, items: seq<Item>) {
    item.supersededBy.Some? ==> exists u :: u in items && SupersededBy(item, u)
  }

  lemma NoFaultSupersedes(items: seq<Item>, item: Item, by_: Option<string>)
    requires SupersessionFault(items, item, by_).None?
    ensures exists u :: u in items && Corrects(u, by_) && LaterUserSources(u, item)
  {
    var u := FindCorrection(items, by_).value;
    assert u in items && Corrects(u, by_) && LaterUserSources(u, item);
  }

  // ------------------------------------------------------------------------
  // Retention
  // ------------------------------------------------------------------------

  /** The later item is the earlier one; at most its supersession has been filled in. */
  predicate Continues(earlier: Item, later: Item) {
    && later.(supersededBy := earlier.supersededBy) == earlier
    && (earlier.supersededBy.Some? ==> later.supersededBy == earlier.supersededBy)
  }

  ghost predicate KeptIn(earlier: Item, items: seq<Item>) {
    exists later :: later in items && Continues(earlier, later)
  }

  ghost predicate AllKept(priors: seq<Item>, items: seq<Item>) {
    forall i :: 0 <= i < |priors| ==> KeptIn(priors[i], items)
  }

  lemma {:induction false} RetainedMeansKept(priors: seq<Item>, items: seq<Item>)
    requires RetainedFaults(priors, items).None?
    ensures AllKept(priors, items)
    ensures forall i :: 0 <= i < |priors| ==> RetainedFault(priors[i], items).None?
  {
    if priors != [] {
      RetainedMeansKept(priors[1..], items);
      var later := FindItem(items, priors[0].id).value;
      assert later in items && Continues(priors[0], later);
    }
  }

  lemma {:induction false} NoNewFaults(candidates: seq<Item>, oldIds: set<string>, items: seq<Item>, batch: seq<Message>)
    requires NewFaults(candidates, oldIds, items, batch).None?
    ensures forall i :: 0 <= i < |candidates| && candidates[i].id !in oldIds ==> NewFault(candidates[i], items, batch).None?
  {
    if candidates != [] {
      NoNewFaults(candidates[1..], oldIds, items, batch);
    }
  }

  lemma SameItem(items: seq<Item>, a: Item, b: Item)
    requires DistinctItems(items) && a in items && b in items && a.id == b.id
    ensures a == b
  {
  }

  // ------------------------------------------------------------------------
  // One checkpoint
  // ------------------------------------------------------------------------

  ghost predicate ItemSound(item: Item, items: seq<Item>, messages: seq<Message>) {
    ItemParses(item) && ItemGrounded(item, messages) && SupersededSoundly(item, items)
  }

  ghost predicate ItemsSound(items: seq<Item>, messages: seq<Message>) {
    && DistinctItems(items)
    && (forall i :: 0 <= i < |items| ==> ItemSound(items[i], items, messages))
  }

  /** An item carried over stays sound: its sources, and what superseded it, are kept. */
  lemma CarriedItemIsSound(item: Item, prior: Item, priors: seq<Item>, items: seq<Item>, messages: seq<Message>)
    requires DistinctItems(items) && item in items && ItemParses(item)
    requires prior in priors && prior.id == item.id && ItemsSound(priors, messages)
    requires RetainedFault(prior, items).None? && AllKept(priors, items)
    ensures ItemSound(item, items, messages)
  {
    var retained := FindItem(items, prior.id).value;
    SameItem(items, item, retained);
    assert item.sources == prior.sources && item.kind == prior.kind;
    assert forall i :: 0 <= i < |item.sources| ==> Grounded(prior, item.sources[i], messages);
    if prior.supersededBy.Some? {
      var u :| u in priors && SupersededBy(prior, u);
      assert KeptIn(u, items);
      var kept :| kept in items && Continues(u, kept);
      assert SupersededBy(item, kept);
    } else if item.supersededBy.Some? {
      NoFaultSupersedes(items, prior, item.supersededBy);
      var u :| u in items && Corrects(u, item.supersededBy) && LaterUserSources(u, prior);
      assert SupersededBy(item, u);
    }
  }

  lemma NewItemIsSound(item: Item, items: seq<Item>, messages: seq<Message>, batch: seq<Message>)
    requires Contiguous(messages) && (forall m :: m in batch ==> m in messages)
    requires ItemParses(item) && NewFault(item, items, batch).None?
    ensures ItemSound(item, items, messages)
  {
    SupportsAreGrounded(item, item.sources, messages, batch);
    if item.supersededBy.Some? {
      NoFaultSupersedes(items, item, item.supersededBy);
      var u :| u in items && Corrects(u, item.supersededBy) && LaterUserSources(u, item);
      assert SupersededBy(item, u);
    }
  }

  lemma {:induction false} BetweenIsPart(messages: seq<Message>, from: int, through: int)
    ensures forall m :: m in Between(messages, from, through) ==> m in messages
  {
    if messages != [] {
      BetweenIsPart(messages[1..], from, through);
    }
  }

  lemma FirstIsPart(messages: seq<Message>, limit: nat)
    ensures forall m :: m in First(messages, limit) ==> m in messages
  {
  }

  /** The checks of a publication make every item of the new checkpoint sound. */
  lemma CheckedItemsAreSound(t: Thread, c: Checkpoint, previous: Option<Checkpoint>)
    requires Contiguous(t.messages) && Parses(c) && ItemsSound(PriorItems(previous), t.messages)
    requires ContentFault(c, previous, Covered(t, c)).None?
    ensures ItemsSound(c.items, t.messages) && AllKept(PriorItems(previous), c.items)
  {
    var priors, batch := PriorItems(previous), Covered(t, c);
    BetweenIsPart(t.messages, c.fromSequence, c.throughSequence);
    FirstIsPart(Between(t.messages, c.fromSequence, c.throughSequence), MAX_BATCH + 1);
    RetainedMeansKept(priors, c.items);
    NoNewFaults(c.items, Ids(priors), c.items, batch);
    forall i | 0 <= i < |c.items|
      ensures ItemSound(c.items[i], c.items, t.messages)
    {
      if c.items[i].id in Ids(priors) {
        var prior :| prior in priors && prior.id == c.items[i].id;
        CarriedItemIsSound(c.items[i], prior, priors, c.items, t.messages);
      } else {
        NewItemIsSound(c.items[i], c.items, t.messages, batch);
      }
    }
  }

  // ------------------------------------------------------------------------
  // The chain
  // ------------------------------------------------------------------------

  ghost predicate CheckpointSound(c: Checkpoint, scope: Scope, messages: seq<Message>) {
    && c.scope == scope && 1 <= c.fromSequence <= c.throughSequence <= |messages|
    && c.throughSequence - c.fromSequence + 1 <= MAX_BATCH
    && c.sourceDigest == SourceDigest(messages[c.fromSequence - 1..c.throughSequence])
    && ItemsSound(c.items, messages)
  }

  /** A checkpoint continues the one before it, or starts the chain. */
  ghost predicate Linked(checkpoints: seq<Checkpoint>, k: nat)
    requires k < |checkpoints|
  {
    if k == 0 then checkpoints[0].parentId == None && checkpoints[0].fromSequence == 1
    else
      && checkpoints[k].parentId == Some(checkpoints[k - 1].id)
      && checkpoints[k].fromSequence == checkpoints[k - 1].throughSequence + 1
      && AllKept(checkpoints[k - 1].items, checkpoints[k].items)
  }

  ghost predicate SoundAt(t: Thread, k: nat)
    requires k < |t.checkpoints|
  {
    CheckpointSound(t.checkpoints[k], t.scope, t.messages) && Linked(t.checkpoints, k)
  }

  ghost predicate ThreadSound(t: Thread, used: set<string>) {
    && Contiguous(t.messages)
    && (forall k :: 0 <= k < |t.checkpoints| ==> SoundAt(t, k))
    && (forall k :: 0 <= k < |t.checkpoints| ==> t.checkpoints[k].id in used)
    && (forall i, k :: 0 <= i < k < |t.checkpoints| ==> t.checkpoints[i].id != t.checkpoints[k].id)
    && SummaryIsNewest(t)
  }

  /** The thread's summary is the narrative of its newest checkpoint, and says how far it goes. */
  ghost predicate SummaryIsNewest(t: Thread) {
    if t.checkpoints == [] then t.summary == None && t.summaryThrough == 0
    else
      var newest := t.checkpoints[|t.checkpoints| - 1];
      t.summary == Some(newest.narrative) && t.summaryThrough == newest.throughSequence
  }

  /** Ranges of later checkpoints come later. */
  lemma {:induction false} ThroughRises(t: Thread, used: set<string>, i: nat, k: nat)
    requires ThreadSound(t, used) && i < k < |t.checkpoints|
    ensures t.checkpoints[i].throughSequence < t.checkpoints[k].fromSequence
    decreases k
  {
    assert SoundAt(t, k) && SoundAt(t, k - 1);
    if i < k - 1 {
      ThroughRises(t, used, i, k - 1);
    }
  }

  lemma {:induction false} LatestOfRising(checkpoints: seq<Checkpoint>)
    requires forall i, k :: 0 <= i < k < |checkpoints| ==> checkpoints[i].throughSequence < checkpoints[k].throughSequence
    ensures Latest(checkpoints) == if checkpoints == [] then None else Some(checkpoints[|checkpoints| - 1])
  {
    if checkpoints != [] {
      LatestOfRising(checkpoints[..|checkpoints| - 1]);
    }
  }

  lemma Rising(t: Thread, used: set<string>)
    requires ThreadSound(t, used)
    ensures forall i, k :: 0 <= i < k < |t.checkpoints| ==>
      t.checkpoints[i].throughSequence < t.checkpoints[k].throughSequence
  {
    forall i, k | 0 <= i < k < |t.checkpoints|
      ensures t.checkpoints[i].throughSequence < t.checkpoints[k].throughSequence
    {
      ThroughRises(t, used, i, k);
      assert SoundAt(t, k);
    }
  }

  lemma {:induction false} MoreMessages(item: Item, items: seq<Item>, messages: seq<Message>, longer: seq<Message>)
    requires ItemSound(item, items, messages) && messages <= longer
    ensures ItemSound(item, items, longer)
  {
    forall i | 0 <= i < |item.sources| ensures Grounded(item, item.sources[i], longer) {
      assert Grounded(item, item.sources[i], messages);
    }
  }

  lemma CheckpointKeptByAppend(c: Checkpoint, scope: Scope, messages: seq<Message>, longer: seq<Message>)
    requires CheckpointSound(c, scope, messages) && messages <= longer
    ensures CheckpointSound(c, scope, longer)
  {
    assert messages[c.fromSequence - 1..c.throughSequence] == longer[c.fromSequence - 1..c.throughSequence];
    forall i | 0 <= i < |c.items| ensures ItemSound(c.items[i], c.items, longer) {
      MoreMessages(c.items[i], c.items, messages, longer);
    }
  }

  lemma AppendKeepsSound(t: Thread, used: set<string>, id: string, role: Role, text: string, key: string, now: int)
    requires ThreadSound(t, used)
    ensures var r := AppendTo(t, id, role, text, key, now); r.Ok? ==> ThreadSound(r.value.0, used)
  {
    MaxOfContiguous(t.messages);
    var r := AppendTo(t, id, role, text, key, now);
    if r.Ok? {
      var t' := r.value.0;
      forall k | 0 <= k < |t.checkpoints| ensures SoundAt(t', k) {
        assert SoundAt(t, k);
        CheckpointKeptByAppend(t.checkpoints[k], t.scope, t.messages, t'.messages);
      }
    }
  }

  lemma CoveredIsSlice(t: Thread, c: Checkpoint)
    requires Contiguous(t.messages) && 1 <= c.fromSequence <= c.throughSequence
    requires |Covered(t, c)| == c.throughSequence - c.fromSequence + 1 && |Covered(t, c)| <= MAX_BATCH
    ensures c.throughSequence <= |t.messages|
    ensures Covered(t, c) == t.messages[c.fromSequence - 1..c.throughSequence]
  {
    BetweenIsSlice(t.messages, 1, c.fromSequence, c.throughSequence);
  }

  lemma NewCheckpointIsSound(t: Thread, c: Checkpoint, used: set<string>, previous: Option<Checkpoint>)
    requires ThreadSound(t, used) && Parses(c) && c.scope == t.scope
    requires previous == (if t.checkpoints == [] then None else Some(t.checkpoints[|t.checkpoints| - 1]))
    requires c.fromSequence == PriorThrough(previous) + 1 && c.fromSequence <= c.throughSequence
    requires ContentFault(c, previous, Covered(t, c)).None?
    ensures CheckpointSound(c, t.scope, t.messages) && AllKept(PriorItems(previous), c.items)
  {
    if previous.Some? {
      assert SoundAt(t, |t.checkpoints| - 1);
    }
    CheckedItemsAreSound(t, c, previous);
    CoveredIsSlice(t, c);
  }

  lemma PublishKeepsSound(t: Thread, c: Checkpoint, used: set<string>)
    requires ThreadSound(t, used) && Parses(c) && c.scope == t.scope
    requires PublishTo(t, c, used).Ok? && PublishTo(t, c, used).value.Some?
    ensures ThreadSound(PublishTo(t, c, used).value.value, used + {c.id})
  {
    Rising(t, used);
    LatestOfRising(t.checkpoints);
    NewCheckpointIsSound(t, c, used, Latest(t.checkpoints));
    OneMoreCheckpoint(t, c, used, PublishTo(t, c, used).value.value);
  }

  lemma OneMoreCheckpoint(t: Thread, c: Checkpoint, used: set<string>, t': Thread)
    requires ThreadSound(t, used) && c.id !in used && CheckpointSound(c, t.scope, t.messages)
    requires t'.checkpoints == t.checkpoints + [c] && t'.messages == t.messages && t'.scope == t.scope
    requires SummaryIsNewest(t') && Linked(t'.checkpoints, |t.checkpoints|)
    ensures ThreadSound(t', used + {c.id})
  {
    forall k | 0 <= k < |t'.checkpoints|
      ensures SoundAt(t', k)
    {
      if k < |t.checkpoints| {
        assert SoundAt(t, k);
        assert t'.checkpoints[k] == t.checkpoints[k] && (k > 0 ==> t'.checkpoints[k - 1] == t.checkpoints[k - 1]);
      }
    }
  }

  lemma MoreIds(t: Thread, used: set<string>, more: set<string>)
    requires ThreadSound(t, used) && used <= more
    ensures ThreadSound(t, more)
  {
  }

  // ------------------------------------------------------------------------
  // Every run
  // ------------------------------------------------------------------------

  ghost predicate StoreSound(s: Store) {
    forall id :: id in s.threads ==> s.threads[id].scope.threadId == id && ThreadSound(s.threads[id], s.checkpointIds)
  }

  lemma AppendKeepsStore(s: Store, scope: Scope, id: string, role: Role, text: string, key: string, now: int)
    requires StoreSound(s) && AppendMessage(s, scope, id, role, text, key, now).Ok?
    ensures StoreSound(AppendMessage(s, scope, id, role, text, key, now).value.0)
  {
    AppendKeepsSound(s.threads[scope.threadId], s.checkpointIds, id, role, text, key, now);
  }

  lemma PublishKeepsStore(s: Store, c: Checkpoint)
    requires StoreSound(s) && PublishCheckpoint(s, c).Ok? && PublishCheckpoint(s, c).value.1
    ensures StoreSound(PublishCheckpoint(s, c).value.0)
  {
    var t, used := s.threads[c.scope.threadId], s.checkpointIds + {c.id};
    PublishKeepsSound(t, c, s.checkpointIds);
    forall id | id in s.threads ensures ThreadSound(s.threads[id], used) {
      MoreIds(s.threads[id], s.checkpointIds, used);
    }
  }

  lemma ApplyKeepsSound(s: Store, op: Op)
    requires StoreSound(s)
    ensures StoreSound(Apply(s, op))
  {
    match op
    case OpenOp(_) =>
    case OwnersOp(_) =>
    case AppendOp(scope, id, role, text, key, now) =>
      if AppendMessage(s, scope, id, role, text, key, now).Ok? {
        AppendKeepsStore(s, scope, id, role, text, key, now);
      }
    case PublishOp(c) =>
      if PublishCheckpoint(s, c).Ok? && PublishCheckpoint(s, c).value.1 {
        PublishKeepsStore(s, c);
      }
  }

  /** After any sequence of openings, ownership changes, appends and publications, every
      thread is sound. */
  lemma {:induction false} SoundInEveryRun(ops: seq<Op>)
    ensures StoreSound(Run(EMPTY, ops))
  {
    if ops != [] {
      SoundInEveryRun(ops[..|ops| - 1]);
      ApplyKeepsSound(Run(EMPTY, ops[..|ops| - 1]), ops[|ops| - 1]);
    }
  }
}
