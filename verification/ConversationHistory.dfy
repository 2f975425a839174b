/** What a sound thread gives its readers: ranges that tile the conversation, one
    successor per checkpoint, items that stay, and supersession that ends. */
module ConversationHistory {
  import opened Basics
  import opened ConversationMemory
  import opened ConversationSafety

  // ------------------------------------------------------------------------
  // Ranges and parents
  // ------------------------------------------------------------------------

  ghost predicate CoversAt(t: Thread, k: nat, n: int) {
    k < |t.checkpoints| && t.checkpoints[k].fromSequence <= n <= t.checkpoints[k].throughSequence
  }

  lemma {:induction false} SomeRangeCovers(t: Thread, used: set<string>, last: nat, n: int) returns (k: nat)
    requires ThreadSound(t, used) && last < |t.checkpoints| && 1 <= n <= t.checkpoints[last].throughSequence
    ensures k <= last && CoversAt(t, k, n)
    decreases last
  {
    assert SoundAt(t, last);
    if t.checkpoints[last].fromSequence <= n {
      k := last;
    } else {
      k := SomeRangeCovers(t, used, last - 1, n);
    }
  }

  /** Every sequence number up to the summary's lies in exactly one checkpoint's range. */
  lemma RangesTile(t: Thread, used: set<string>, n: int)
    requires ThreadSound(t, used)
    ensures 1 <= n <= t.summaryThrough <==> exists k :: CoversAt(t, k, n)
    ensures forall i, k :: CoversAt(t, i, n) && CoversAt(t, k, n) ==> i == k
  {
    if 1 <= n <= t.summaryThrough {
      var k := SomeRangeCovers(t, used, |t.checkpoints| - 1, n);
    }
    forall k: nat | CoversAt(t, k, n)
      ensures 1 <= n <= t.summaryThrough
    {
      assert SoundAt(t, k) && SoundAt(t, |t.checkpoints| - 1);
      if k < |t.checkpoints| - 1 {
        ThroughRises(t, used, k, |t.checkpoints| - 1);
      }
    }
    forall i: nat, k: nat | CoversAt(t, i, n) && CoversAt(t, k, n)
      ensures i == k
    {
      if i < k {
        ThroughRises(t, used, i, k);
      } else if k < i {
        ThroughRises(t, used, k, i);
      }
    }
  }

  /** In every run a thread without a checkpoint has no summary; any other has the narrative
      of the checkpoint that reaches furthest. */
  lemma SummaryInEveryRun(ops: seq<Op>, id: string)
    requires id in Run(EMPTY, ops).threads
    ensures SummaryIsFurthest(Run(EMPTY, ops).threads[id])
  {
    SoundInEveryRun(ops);
    SummaryOfSound(Run(EMPTY, ops).threads[id], Run(EMPTY, ops).checkpointIds);
  }

  ghost predicate ReachesFurthest(c: Checkpoint, checkpoints: seq<Checkpoint>) {
    c in checkpoints && forall other :: other in checkpoints ==> other.throughSequence <= c.throughSequence
  }

  ghost predicate SummaryIsFurthest(t: Thread) {
    && (t.checkpoints == [] ==> t.summary == None && t.summaryThrough == 0)
    && (forall c :: ReachesFurthest(c, t.checkpoints) ==> t.summary == Some(c.narrative) && t.summaryThrough == c.throughSequence)
    && (t.checkpoints != [] ==> exists c :: ReachesFurthest(c, t.checkpoints))
  }

  lemma SummaryOfSound(t: Thread, used: set<string>)
    requires ThreadSound(t, used)
    ensures SummaryIsFurthest(t)
  {
    forall c | ReachesFurthest(c, t.checkpoints) ensures t.checkpoints[|t.checkpoints| - 1] == c {
      FurthestIsNewest(t, used, c);
    }
    if t.checkpoints != [] {
      Rising(t, used);
      assert ReachesFurthest(t.checkpoints[|t.checkpoints| - 1], t.checkpoints);
    }
  }

  lemma FurthestIsNewest(t: Thread, used: set<string>, c: Checkpoint)
    requires ThreadSound(t, used) && c in t.checkpoints
    requires forall other :: other in t.checkpoints ==> other.throughSequence <= c.throughSequence
    ensures t.checkpoints[|t.checkpoints| - 1] == c
  {
    var k :| 0 <= k < |t.checkpoints| && t.checkpoints[k] == c;
    assert t.checkpoints[|t.checkpoints| - 1] in t.checkpoints;
    Rising(t, used);
  }

  /** What an accepted publication writes: the checkpoint behind the others, its narrative as
      the summary and how far that goes. The messages, the revision and every other thread
      stay. */
  lemma PublicationWrites(s: Store, c: Checkpoint)
    requires PublishCheckpoint(s, c).Ok? && PublishCheckpoint(s, c).value.1
    ensures var s' := PublishCheckpoint(s, c).value.0; var id := c.scope.threadId;
      && id in s.threads && s'.threads.Keys == s.threads.Keys
      && s'.threads[id].checkpoints == s.threads[id].checkpoints + [c]
      && s'.threads[id].summary == Some(c.narrative) && s'.threads[id].summaryThrough == c.throughSequence
      && s'.threads[id].messages == s.threads[id].messages && s'.threads[id].revision == s.threads[id].revision
      && s'.threads[id].scope == s.threads[id].scope
      && (forall other :: other in s.threads && other != id ==> s'.threads[other] == s.threads[other])
      && s'.owners == s.owners && s'.messageIds == s.messageIds && s'.checkpointIds == s.checkpointIds + {c.id}
  {
  }

  /** What an append that is not a replay writes, in a sound thread: the next message, with
      the author, the words and the time it was given. The checkpoints, the summary and every
      other thread stay. */
  lemma AppendWrites(s: Store, scope: Scope, id: string, role: Role, text: string, key: string, now: int)
    requires StoreSound(s) && AppendMessage(s, scope, id, role, text, key, now).Ok?
    requires !AppendMessage(s, scope, id, role, text, key, now).value.1.duplicate
    ensures var (s', answer) := AppendMessage(s, scope, id, role, text, key, now).value;
      && scope.threadId in s.threads && s.threads[scope.threadId].scope == scope && s'.threads.Keys == s.threads.Keys
      && var t, t' := s.threads[scope.threadId], s'.threads[scope.threadId]; var m := answer.message;
      && t'.messages == t.messages + [m]
      && m.id == id && m.role == role && m.originalText == text && m.createdAt == now && m.sequence == |t.messages| + 1
      && m.key == (if |key| <= 500 then key else key[..500])
      && t' == t.(messages := t'.messages, revision := t.revision + 1)
      && (forall other :: other in s.threads && other != scope.threadId ==> s'.threads[other] == s.threads[other])
      && s'.owners == s.owners && s'.checkpointIds == s.checkpointIds && s'.messageIds == s.messageIds + {id}
      && id !in s.messageIds
  {
    MaxOfContiguous(s.threads[scope.threadId].messages);
  }

  /** The bytes of a character in UTF-8 (section 3 of RFC 3629). */
  ghost function Encoded(c: char): seq<int> {
    var n := c as int;
    if n <= 0x7F then [n]
    else if n <= 0x7FF then [0xC0 + n / 64, 0x80 + n % 64]
    else if n <= 0xFFFF then [0xE0 + n / 4096, 0x80 + n / 64 % 64, 0x80 + n % 64]
    else [0xF0 + n / 262144, 0x80 + n / 4096 % 64, 0x80 + n / 64 % 64, 0x80 + n % 64]
  }

  ghost function Utf8(text: string): seq<int> {
    if text == "" then [] else Encoded(text[0]) + Utf8(text[1..])
  }

  lemma {:induction false} LengthInBytes(text: string)
    ensures Utf8Length(text) == |Utf8(text)|
  {
    if text != "" {
      LengthInBytes(text[1..]);
    }
  }

  ghost predicate Acceptable(text: string) {
    !Blank(text) && |Utf8(text)| <= 65536
  }

  /** The key as the column keeps it. */
  ghost predicate KeptAs(key: string, kept: string) {
    if |key| <= 500 then kept == key else kept == key[..500]
  }

  /** An append is refused for a text that is blank or of more than 65,536 bytes, and for a
      thread that is not the owner's. Otherwise the message with its key answers; without one
      a new message is stored, unless the key as the column keeps it, or the id, is taken. */
  lemma AppendAnswers(s: Store, scope: Scope, id: string, role: Role, text: string, key: string, kept: string, now: int)
    requires KeptAs(key, kept)
    ensures var r := AppendMessage(s, scope, id, role, text, key, now);
      var found := scope.threadId in s.threads && s.threads[scope.threadId].scope == scope;
      && (r == Err(MessageInvalid) <==> !Acceptable(text))
      && (r == Err(ThreadNotFound) <==> Acceptable(text) && !found)
      && (Acceptable(text) && found ==> Answered(s.threads[scope.threadId].messages, s, id, key, kept, r))
  {
    LengthInBytes(text);
  }

  ghost predicate Answered(messages: seq<Message>, s: Store, id: string, key: string, kept: string, r: Result<(Store, Appended), Error>) {
    var known := exists m :: m in messages && m.key == key;
    var taken := exists m :: m in messages && m.key == kept;
    && (r.Ok? && r.value.1.duplicate <==> known)
    && (r.Ok? && !r.value.1.duplicate <==> !known && !taken && id !in s.messageIds)
    && (r.Err? ==> r.error == InsertRejected)
    && (known ==> r.value.0 == s && r.value.1.message in messages && r.value.1.message.key == key)
  }

  /** No two checkpoints of a thread continue the same one. */
  lemma ChainIsUnforked(t: Thread, used: set<string>, i: nat, k: nat)
    requires ThreadSound(t, used) && i < |t.checkpoints| && k < |t.checkpoints|
    requires t.checkpoints[i].parentId == t.checkpoints[k].parentId
    ensures i == k
  {
    assert SoundAt(t, i) && SoundAt(t, k);
  }

  /** After a publication, neither it nor a rival with the same parent is accepted again:
      both are told the chain has moved on, and nothing changes. */
  lemma SecondChildIsRefused(s: Store, c: Checkpoint, rival: Checkpoint)
    requires StoreSound(s) && PublishCheckpoint(s, c).Ok? && PublishCheckpoint(s, c).value.1
    requires Parses(rival) && rival.scope == c.scope && rival.parentId == c.parentId
    ensures PublishCheckpoint(PublishCheckpoint(s, c).value.0, rival) == Ok((PublishCheckpoint(s, c).value.0, false))
  {
    var t := s.threads[c.scope.threadId];
    var s' := PublishCheckpoint(s, c).value.0;
    var t' := s'.threads[c.scope.threadId];
    PublishKeepsSound(t, c, s.checkpointIds);
    Rising(t', s.checkpointIds + {c.id});
    LatestOfRising(t'.checkpoints);
    Rising(t, s.checkpointIds);
    LatestOfRising(t.checkpoints);
    assert c.parentId != Some(c.id);
  }

  // ------------------------------------------------------------------------
  // Items stay
  // ------------------------------------------------------------------------

  /** An item published once is in every later checkpoint, word for word, and once it is
      superseded it stays superseded by the same item. */
  lemma {:induction false} ItemsAreKept(t: Thread, used: set<string>, i: nat, k: nat, item: Item)
    requires ThreadSound(t, used) && i <= k < |t.checkpoints| && item in t.checkpoints[i].items
    ensures KeptIn(item, t.checkpoints[k].items)
    decreases k
  {
    if i == k {
      assert Continues(item, item);
    } else {
      ItemsAreKept(t, used, i, k - 1, item);
      var middle :| middle in t.checkpoints[k - 1].items && Continues(item, middle);
      assert SoundAt(t, k);
      assert KeptIn(middle, t.checkpoints[k].items);
      var later :| later in t.checkpoints[k].items && Continues(middle, later);
      assert Continues(item, later);
    }
  }

  /** The words an item quotes are in the message it names, for good. */
  lemma QuotesAreReal(t: Thread, used: set<string>, k: nat, item: Item, i: nat)
    requires ThreadSound(t, used) && k < |t.checkpoints| && item in t.checkpoints[k].items && i < |item.sources|
    ensures Grounded(item, item.sources[i], t.messages)
  {
    assert SoundAt(t, k);
    var at :| 0 <= at < |t.checkpoints[k].items| && t.checkpoints[k].items[at] == item;
    assert ItemSound(t.checkpoints[k].items[at], t.checkpoints[k].items, t.messages);
  }

  // ------------------------------------------------------------------------
  // Supersession ends
  // ------------------------------------------------------------------------

  lemma {:induction false} NewestIsMax(sources: seq<Support>)
    ensures forall i :: 0 <= i < |sources| ==> sources[i].sequence <= Newest(sources)
    ensures Newest(sources) > 0 ==> exists i :: 0 <= i < |sources| && sources[i].sequence == Newest(sources)
  {
    if sources != [] {
      var n := |sources| - 1;
      NewestIsMax(sources[..n]);
      if Newest(sources) != sources[n].sequence && Newest(sources) > 0 {
        var i :| 0 <= i < n && sources[..n][i].sequence == Newest(sources[..n]);
        assert sources[i].sequence == Newest(sources);
      }
    }
  }

  /** The item that a superseded item points to is there, rests on user messages only, and
      all of them are later than every message the superseded item rests on. */
  lemma SupersederIsLater(items: seq<Item>, messages: seq<Message>, item: Item)
    requires ItemsSound(items, messages) && item in items && item.supersededBy.Some?
    ensures FindItem(items, item.supersededBy.value).Some?
    ensures SupersededBy(item, FindItem(items, item.supersededBy.value).value)
    ensures Newest(item.sources) < Newest(FindItem(items, item.supersededBy.value).value.sources) <= |messages|
  {
    var at :| 0 <= at < |items| && items[at] == item;
    assert ItemSound(items[at], items, messages);
    var u :| u in items && SupersededBy(item, u);
    var found := FindItem(items, item.supersededBy.value).value;
    SameItem(items, u, found);
    var k :| 0 <= k < |items| && items[k] == found;
    assert ItemSound(items[k], items, messages);
    NewestIsMax(found.sources);
    assert SupportParses(found.sources[0]);
    var n :| 0 <= n < |found.sources| && found.sources[n].sequence == Newest(found.sources);
    assert Grounded(found, found.sources[n], messages);
  }

  /** Following supersession from an item always ends, at an item nothing supersedes. */
  ghost function Current(items: seq<Item>, messages: seq<Message>, item: Item): (r: Item)
    requires ItemsSound(items, messages) && item in items
    ensures r in items && r.supersededBy.None?
    ensures item.supersededBy.Some? ==> Newest(item.sources) < Newest(r.sources)
    decreases |messages| - Newest(item.sources)
  {
    if item.supersededBy.None? then item
    else
      SupersederIsLater(items, messages, item);
      Current(items, messages, FindItem(items, item.supersededBy.value).value)
  }

  predicate StepAt(path: seq<Item>, i: nat)
    requires i + 1 < |path|
  {
    path[i].supersededBy == Some(path[i + 1].id)
  }

  /** A walk along supersession. */
  ghost predicate Walk(items: seq<Item>, path: seq<Item>) {
    && (forall i :: 0 <= i < |path| ==> path[i] in items)
    && (forall i :: 0 <= i < |path| - 1 ==> StepAt(path, i))
  }

  lemma StepRises(items: seq<Item>, messages: seq<Message>, item: Item, next: Item)
    requires ItemsSound(items, messages) && item in items && next in items && item.supersededBy == Some(next.id)
    ensures Newest(item.sources) < Newest(next.sources)
  {
    SupersederIsLater(items, messages, item);
    SameItem(items, next, FindItem(items, next.id).value);
  }

  predicate UpAt(ranks: seq<int>, i: nat)
    requires i + 1 < |ranks|
  {
    ranks[i] < ranks[i + 1]
  }

  lemma {:induction false} UpThroughout(ranks: seq<int>, n: nat)
    requires 0 < n < |ranks| && forall i :: 0 <= i < |ranks| - 1 ==> UpAt(ranks, i)
    ensures ranks[0] < ranks[n]
  {
    assert UpAt(ranks, n - 1);
    if n > 1 {
      UpThroughout(ranks, n - 1);
    }
  }

  /** No walk along supersession visits an item twice. */
  lemma SupersessionHasNoCycle(items: seq<Item>, messages: seq<Message>, path: seq<Item>)
    requires ItemsSound(items, messages) && Walk(items, path) && |path| >= 2
    ensures Newest(path[0].sources) < Newest(path[|path| - 1].sources)
    ensures path[0] != path[|path| - 1]
  {
    var ranks := seq(|path|, i requires 0 <= i < |path| => Newest(path[i].sources));
    forall i | 0 <= i < |ranks| - 1 ensures UpAt(ranks, i) {
      assert StepAt(path, i);
      StepRises(items, messages, path[i], path[i + 1]);
    }
    UpThroughout(ranks, |path| - 1);
  }

  // ------------------------------------------------------------------------
  // Replayed appends
  // ------------------------------------------------------------------------

  lemma {:induction false} FindAppended(messages: seq<Message>, m: Message, key: string)
    requires FindKey(messages, key).None?
    ensures FindKey(messages + [m], key) == if m.key == key then Some(|messages|) else None
  {
    if messages != [] {
      assert (messages + [m])[1..] == messages[1..] + [m];
      FindAppended(messages[1..], m, key);
    } else {
      assert messages + [m] == [m];
    }
  }

  lemma {:induction false} FindInPrefix(messages: seq<Message>, more: seq<Message>, key: string)
    requires FindKey(messages, key).Some?
    ensures FindKey(messages + more, key) == FindKey(messages, key)
  {
    if messages[0].key == key {
      assert (messages + more)[0] == messages[0];
    } else {
      assert (messages + more)[1..] == messages[1..] + more;
      FindInPrefix(messages[1..], more, key);
    }
  }

  /** The thread is still there, with the messages it had and perhaps more behind them. */
  ghost predicate MoreMessages(s: Store, now: Store, scope: Scope, more: seq<Message>)
    requires InScope(s, scope)
  {
    && InScope(now, scope)
    && now.threads[scope.threadId].messages == s.threads[scope.threadId].messages + more
    && (forall m :: m in more ==> |m.key| <= MAX_KEY)
  }

  lemma StepAddsMessages(s: Store, op: Op, scope: Scope) returns (more: seq<Message>)
    requires InScope(s, scope)
    ensures MoreMessages(s, Apply(s, op), scope, more)
  {
    more := [];
    assert s.threads[scope.threadId].messages + [] == s.threads[scope.threadId].messages;
    if op.AppendOp? && op.scope.threadId == scope.threadId {
      var r := AppendMessage(s, op.scope, op.id, op.role, op.text, op.key, op.now);
      if r.Ok? && !r.value.1.duplicate {
        more := [r.value.1.message];
      }
    }
  }

  lemma {:induction false} RunAddsMessages(s: Store, ops: seq<Op>, scope: Scope) returns (more: seq<Message>)
    requires InScope(s, scope)
    ensures MoreMessages(s, Run(s, ops), scope, more)
  {
    if ops == [] {
      more := [];
      assert s.threads[scope.threadId].messages + [] == s.threads[scope.threadId].messages;
    } else {
      var n := |ops| - 1;
      var before := RunAddsMessages(s, ops[..n], scope);
      var last := StepAddsMessages(Run(s, ops[..n]), ops[n], scope);
      more := before + last;
      Regroup(s.threads[scope.threadId].messages, before, last);
    }
  }

  /** Sending a message again under its key, whatever happened since, answers with the stored
      message and adds nothing exactly when the key fits the column; a longer key is refused,
      because the table holds its first 500 characters while the whole key is looked up. */
  lemma ReplayedAppend(s: Store, scope: Scope, id: string, role: Role, text: string, key: string, now: int,
                       later: seq<Op>, id2: string, role2: Role, text2: string, now2: int)
    requires AppendMessage(s, scope, id, role, text, key, now).Ok?
    requires !AppendMessage(s, scope, id, role, text, key, now).value.1.duplicate
    requires !Blank(text2) && Utf8Length(text2) <= MAX_BYTES
    ensures var (s', first) := AppendMessage(s, scope, id, role, text, key, now).value; var after := Run(s', later);
      AppendMessage(after, scope, id2, role2, text2, key, now2) ==
        if |key| <= MAX_KEY then Ok((after, Appended(first.message, true))) else Err(InsertRejected)
  {
    var (s', first) := AppendMessage(s, scope, id, role, text, key, now).value;
    FirstAppend(s, scope, id, role, text, key, now);
    var more := RunAddsMessages(s', later, scope);
    ReplayFindsFirst(s.threads[scope.threadId].messages, first.message, more, key);
  }

  /** An append that is not a replay finds its key free and puts its message behind the others. */
  lemma FirstAppend(s: Store, scope: Scope, id: string, role: Role, text: string, key: string, now: int)
    requires AppendMessage(s, scope, id, role, text, key, now).Ok?
    requires !AppendMessage(s, scope, id, role, text, key, now).value.1.duplicate
    ensures var (s', first) := AppendMessage(s, scope, id, role, text, key, now).value;
      && InScope(s, scope) && InScope(s', scope) && first.message.key == StoredKey(key)
      && FindKey(s.threads[scope.threadId].messages, key).None?
      && FindKey(s.threads[scope.threadId].messages, StoredKey(key)).None?
      && s'.threads[scope.threadId].messages == s.threads[scope.threadId].messages + [first.message]
  {
  }

  /** What a replay looks up among the messages before, the first message and those behind it. */
  lemma ReplayFindsFirst(before: seq<Message>, m: Message, more: seq<Message>, key: string)
    requires m.key == StoredKey(key) && FindKey(before, key).None? && FindKey(before, StoredKey(key)).None?
    requires forall later :: later in more ==> |later.key| <= MAX_KEY
    ensures FindKey(before + [m] + more, StoredKey(key)) == Some(|before|)
    ensures |key| > MAX_KEY ==> FindKey(before + [m] + more, key).None?
    ensures (before + [m] + more)[|before|] == m
  {
    var stored := before + [m];
    FindAppended(before, m, StoredKey(key));
    FindInPrefix(stored, more, StoredKey(key));
    assert (stored + more)[|before|] == stored[|before|] == m;
    if |key| > MAX_KEY {
      forall i | 0 <= i < |stored + more| ensures (stored + more)[i].key != key {
        if i >= |stored| {
          assert (stored + more)[i] in more;
        }
      }
    }
  }

  // ------------------------------------------------------------------------
  // Reading a cut
  // ------------------------------------------------------------------------

  /** As many messages as asked for, at least one and at most 200; 200 when not asked. */
  ghost predicate PageSize(limit: Option<int>, n: int) {
    match limit
    case None => n == 200
    case Some(asked) => 1 <= n <= 200 && (n < 200 ==> asked <= n) && (n > 1 ==> n <= asked)
  }

  /** A page is the next messages behind `after`, up to the cut and to the page's size. */
  lemma PageIsNextMessages(t: Thread, through: int, after: Option<int>, limit: Option<int>, n: int)
    requires Contiguous(t.messages) && PageSize(limit, n)
    ensures
      var a := if after.Some? && after.value > 0 then after.value else 0;
      var b := if through < |t.messages| then through else |t.messages|;
      ReadMessages(t, through, after, limit) == if b <= a then [] else if b <= a + n then t.messages[a..b] else t.messages[a..a + n]
  {
    var from := if after.Some? then after.value else 0;
    BehindAndUpTo(t.messages, from, through);
    assert Clamp(limit) == n;
    assert ReadMessages(t, through, after, limit) == First(Between(t.messages, from + 1, through), n);
    var a := if from > 0 then from else 0;
    var b := if through < |t.messages| then through else |t.messages|;
    if a < b {
      FirstOfPart(t.messages, a, b, n);
    }
  }

  lemma FirstOfPart(messages: seq<Message>, a: nat, b: nat, n: nat)
    requires a < b <= |messages|
    ensures First(messages[a..b], n) == if b <= a + n then messages[a..b] else messages[a..a + n]
  {
    if b > a + n {
      var part, page := messages[a..b], messages[a..a + n];
      assert |part[..n]| == |page|;
      forall i | 0 <= i < n ensures part[..n][i] == page[i] {
        assert part[i] == messages[a + i] && page[i] == messages[a + i];
      }
      assert part[..n] == page;
    }
  }

  lemma BehindAndUpTo(messages: seq<Message>, after: int, through: int)
    requires Contiguous(messages)
    ensures
      var a := if after > 0 then after else 0;
      var b := if through < |messages| then through else |messages|;
      Between(messages, after + 1, through) == if b <= a then [] else messages[a..b]
  {
    var a := if after > 0 then after else 0;
    if after < 0 {
      FromFirst(messages, after + 1, through);
    }
    if through < a {
      EmptyRange(messages, a + 1, through);
    } else {
      BetweenIsSlice(messages, 1, a + 1, through);
    }
  }

  lemma {:induction false} FromFirst(messages: seq<Message>, from: int, through: int)
    requires from <= 1 && forall k :: 0 <= k < |messages| ==> 1 <= messages[k].sequence
    ensures Between(messages, from, through) == Between(messages, 1, through)
  {
    if messages != [] {
      FromFirst(messages[1..], from, through);
    }
  }

  lemma {:induction false} EmptyRange(messages: seq<Message>, from: int, through: int)
    requires through < from
    ensures Between(messages, from, through) == []
  {
    if messages != [] {
      EmptyRange(messages[1..], from, through);
    }
  }

  ghost predicate Splits(checkpoints: seq<Checkpoint>, through: int, n: nat) {
    && n <= |checkpoints| && UpTo(checkpoints, through) == checkpoints[..n]
    && forall i :: 0 <= i < |checkpoints| ==> (i < n <==> checkpoints[i].throughSequence <= through)
  }

  lemma {:induction false} UpToIsPrefix(checkpoints: seq<Checkpoint>, through: int) returns (n: nat)
    requires forall i, k :: 0 <= i < k < |checkpoints| ==> checkpoints[i].throughSequence < checkpoints[k].throughSequence
    ensures Splits(checkpoints, through, n)
  {
    if checkpoints == [] {
      n := 0;
    } else {
      var k := UpToIsPrefix(checkpoints[1..], through);
      if checkpoints[0].throughSequence <= through {
        n := k + 1;
        SplitBehindHead(checkpoints, checkpoints[1..], through, k);
      } else {
        n := 0;
        NothingUpTo(checkpoints, through);
      }
    }
  }

  lemma SplitBehindHead(checkpoints: seq<Checkpoint>, rest: seq<Checkpoint>, through: int, k: nat)
    requires checkpoints != [] && rest == checkpoints[1..] && checkpoints[0].throughSequence <= through
    requires Splits(rest, through, k)
    ensures Splits(checkpoints, through, k + 1)
  {
    assert [checkpoints[0]] + rest[..k] == checkpoints[..k + 1];
    forall i | 1 <= i < |checkpoints| ensures i < k + 1 <==> checkpoints[i].throughSequence <= through {
      assert checkpoints[i] == rest[i - 1];
    }
  }

  lemma {:induction false} NothingUpTo(checkpoints: seq<Checkpoint>, through: int)
    requires forall i :: 0 <= i < |checkpoints| ==> checkpoints[i].throughSequence > through
    ensures Splits(checkpoints, through, 0)
  {
    if checkpoints != [] {
      NothingUpTo(checkpoints[1..], through);
    }
  }

  /** Of rising checkpoints, the latest up to a position is the last one not past it. */
  lemma LatestUpTo(checkpoints: seq<Checkpoint>, cut: int) returns (n: nat)
    requires forall i, k :: 0 <= i < k < |checkpoints| ==> checkpoints[i].throughSequence < checkpoints[k].throughSequence
    ensures n <= |checkpoints|
    ensures forall i :: 0 <= i < |checkpoints| ==> (i < n <==> checkpoints[i].throughSequence <= cut)
    ensures Latest(UpTo(checkpoints, cut)) == if n == 0 then None else Some(checkpoints[n - 1])
  {
    n := UpToIsPrefix(checkpoints, cut);
    LatestOfRising(checkpoints[..n]);
  }

  lemma CheckpointAtCut(t: Thread, used: set<string>, cut: int)
    requires ThreadSound(t, used) && 0 <= cut
    ensures var c := ReadCheckpoint(t, cut);
      && (c.Some? ==> c.value in t.checkpoints)
      && 0 <= PriorThrough(c) <= cut
      && (forall k :: 0 <= k < |t.checkpoints| && t.checkpoints[k].throughSequence <= cut ==>
            t.checkpoints[k].throughSequence <= PriorThrough(c))
  {
    Rising(t, used);
    var n := LatestUpTo(t.checkpoints, cut);
    if n > 0 {
      assert SoundAt(t, n - 1);
    }
  }

  /** The checkpoint read at a cut summarises a prefix of the conversation that ends at or
      before the cut, and is the longest such; the page behind it brings the rest of the
      cut when that is at most 200 messages. */
  lemma CutIsCovered(t: Thread, used: set<string>, cut: int)
    requires ThreadSound(t, used) && 0 <= cut <= |t.messages|
    ensures var c := ReadCheckpoint(t, cut); var done := PriorThrough(c);
      && (c.Some? ==> c.value in t.checkpoints)
      && 0 <= done <= cut
      && (forall k :: 0 <= k < |t.checkpoints| && t.checkpoints[k].throughSequence <= cut ==>
            t.checkpoints[k].throughSequence <= done)
      && (cut - done <= 200 ==> ReadMessages(t, cut, Some(done), None) == t.messages[done..cut])
  {
    CheckpointAtCut(t, used, cut);
    var done := PriorThrough(ReadCheckpoint(t, cut));
    PageIsNextMessages(t, cut, Some(done), None, 200);
  }
}
