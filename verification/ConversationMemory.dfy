/** Conversation messages and the memory checkpoints published over them
    (finnor-os/packages/db/conversation-memory.ts, and message append in
    finnor-os/packages/db/index.ts). Each function is one transaction. */
module ConversationMemory {
  import opened Basics

  // ------------------------------------------------------------------------
  // Rows
  // ------------------------------------------------------------------------

  datatype Role = User | Assistant
  datatype Kind = Goal | Constraint | Correction | Decision | OpenQuestion | Artifact | Resolution | Context | AssistantProposal

  /** A message, in the unit the digest and the quotes are taken from. */
  datatype Message = Message(id: string, sequence: int, role: Role, originalText: string, key: string, createdAt: int)
  datatype Support = Support(messageId: string, sequence: int, role: Role, quote: string, recordedAt: int)
  datatype Item = Item(id: string, kind: Kind, subject: string, statement: string, sources: seq<Support>, supersededBy: Option<string>)
  datatype Scope = Scope(tenantId: string, ownerId: string, threadId: string)
  datatype Digested = Digested(id: string, sequence: int, role: Role, originalText: string)
  datatype Checkpoint = Checkpoint(id: string, scope: Scope, parentId: Option<string>, fromSequence: int, throughSequence: int,
                                   sourceDigest: seq<Digested>, items: seq<Item>, narrative: string)
  datatype Thread = Thread(scope: Scope, messages: seq<Message>, checkpoints: seq<Checkpoint>,
                           summary: Option<string>, summaryThrough: int, revision: nat)

  /** owners holds the active owners of each tenant; ids already given out are never reused. */
  datatype Store = Store(owners: set<(string, string)>, threads: map<string, Thread>, messageIds: set<string>, checkpointIds: set<string>)

  datatype Error = SchemaInvalid | OwnerNotActive | ThreadNotFound | CheckpointGap | SourceChanged | DuplicateItem
                 | RetainedItemChanged | SupersessionChanged | SupersessionInvalid | QuoteInvalid | AssistantPromotion
                 | InsertRejected | MessageInvalid

  const MAX_BATCH := 200
  const MAX_KEY := 500
  const MAX_BYTES := 65536

  // ------------------------------------------------------------------------
  // Appending a message
  // ------------------------------------------------------------------------

  function Utf8Length(text: string): nat {
    if text == "" then 0
    else
      var c := text[0] as int;
      (if c < 0x80 then 1 else if c < 0x800 then 2 else if c < 0x10000 then 3 else 4) + Utf8Length(text[1..])
  }

  function StoredKey(key: string): string {
    if |key| <= MAX_KEY then key else key[..MAX_KEY]
  }

  function FindKey(messages: seq<Message>, key: string): (r: Option<nat>)
    ensures r.Some? ==> r.value < |messages| && messages[r.value].key == key
    ensures r.None? <==> forall i :: 0 <= i < |messages| ==> messages[i].key != key
  {
    if messages == [] then None
    else if messages[0].key == key then Some(0)
    else
      match FindKey(messages[1..], key)
      case None => None
      case Some(i) => Some(i + 1)
  }

  function MaxSequence(messages: seq<Message>): int {
    if messages == [] then 0
    else
      var before := MaxSequence(messages[..|messages| - 1]);
      var last := messages[|messages| - 1].sequence;
      if last > before then last else before
  }

  datatype Appended = Appended(message: Message, duplicate: bool)

  /** Looks up the whole key, stores its first 500 characters; the table refuses a second
      row with the same stored key. */
  function AppendTo(t: Thread, id: string, role: Role, text: string, key: string, now: int): Result<(Thread, Appended), Error> {
    var existing := FindKey(t.messages, key);
    if existing.Some? then Ok((t, Appended(t.messages[existing.value], true)))
    else if FindKey(t.messages, StoredKey(key)).Some? then Err(InsertRejected)
    else
      var m := Message(id, MaxSequence(t.messages) + 1, role, text, StoredKey(key), now);
      Ok((t.(messages := t.messages + [m], revision := t.revision + 1), Appended(m, false)))
  }

  predicate InScope(s: Store, scope: Scope) {
    scope.threadId in s.threads && s.threads[scope.threadId].scope == scope
  }

  function AppendMessage(s: Store, scope: Scope, id: string, role: Role, text: string, key: string, now: int)
    : Result<(Store, Appended), Error>
  {
    if Blank(text) || Utf8Length(text) > MAX_BYTES then Err(MessageInvalid)
    else if !InScope(s, scope) then Err(ThreadNotFound)
    else
      match AppendTo(s.threads[scope.threadId], id, role, text, key, now)
      case Err(e) => Err(e)
      case Ok((t, a)) =>
        if a.duplicate then Ok((s, a))
        else if id in s.messageIds then Err(InsertRejected)
        else Ok((s.(threads := s.threads[scope.threadId := t], messageIds := s.messageIds + {id}), a))
  }

  // ------------------------------------------------------------------------
  // Reading
  // ------------------------------------------------------------------------

  /** Rows with a sequence between the bounds. Rows are kept in sequence order. */
  function Between(messages: seq<Message>, from: int, through: int): seq<Message> {
    if messages == [] then []
    else
      var rest := Between(messages[1..], from, through);
      if from <= messages[0].sequence <= through then [messages[0]] + rest else rest
  }

  function First(messages: seq<Message>, limit: int): seq<Message>
    requires limit >= 0
  {
    if |messages| <= limit then messages else messages[..limit]
  }

  function Clamp(limit: Option<int>): int {
    var asked := if limit.Some? then limit.value else MAX_BATCH;
    if asked > MAX_BATCH then MAX_BATCH else if asked < 1 then 1 else asked
  }

  function ReadMessages(t: Thread, through: int, after: Option<int>, limit: Option<int>): seq<Message> {
    First(Between(t.messages, (if after.Some? then after.value else 0) + 1, through), Clamp(limit))
  }

  /** The checkpoint with the greatest through sequence. */
  function Latest(checkpoints: seq<Checkpoint>): (r: Option<Checkpoint>)
    ensures r.Some? ==> r.value in checkpoints
  {
    if checkpoints == [] then None
    else
      var last := checkpoints[|checkpoints| - 1];
      var before := Latest(checkpoints[..|checkpoints| - 1]);
      if before.Some? && before.value.throughSequence >= last.throughSequence then before else Some(last)
  }

  function UpTo(checkpoints: seq<Checkpoint>, through: int): seq<Checkpoint> {
    if checkpoints == [] then []
    else
      var rest := UpTo(checkpoints[1..], through);
      if checkpoints[0].throughSequence <= through then [checkpoints[0]] + rest else rest
  }

  function ReadCheckpoint(t: Thread, through: int): Option<Checkpoint> {
    Latest(UpTo(t.checkpoints, through))
  }

  // ------------------------------------------------------------------------
  // Publishing a checkpoint
  // ------------------------------------------------------------------------

  predicate SupportParses(s: Support) {
    s.sequence > 0 && 1 <= |s.quote| <= 4096
  }

  predicate ItemParses(item: Item) {
    && 1 <= |item.subject| <= 240 && 1 <= |item.statement| <= 2000
    && 1 <= |item.sources| <= 8 && (forall i :: 0 <= i < |item.sources| ==> SupportParses(item.sources[i]))
  }

  predicate Parses(c: Checkpoint) {
    && c.fromSequence > 0 && c.throughSequence > 0 && |c.items| <= 2048 && |c.narrative| <= 16000
    && (forall i :: 0 <= i < |c.items| ==> ItemParses(c.items[i]))
  }

  /** The digest is an injective hash of these fields. */
  function SourceDigest(messages: seq<Message>): (r: seq<Digested>)
    ensures |r| == |messages|
  {
    seq(|messages|, i requires 0 <= i < |messages| =>
      Digested(messages[i].id, messages[i].sequence, messages[i].role, messages[i].originalText))
  }

  function FindItem(items: seq<Item>, id: string): (r: Option<Item>)
    ensures r.Some? ==> r.value in items && r.value.id == id
    ensures r.None? <==> forall i :: 0 <= i < |items| ==> items[i].id != id
  {
    if items == [] then None else if items[0].id == id then Some(items[0]) else FindItem(items[1..], id)
  }

  predicate Corrects(item: Item, id: Option<string>) {
    Some(item.id) == id && (item.kind == Correction || item.kind == Resolution)
  }

  function FindCorrection(items: seq<Item>, id: Option<string>): (r: Option<Item>)
    ensures r.Some? ==> r.value in items && Corrects(r.value, id)
  {
    if items == [] then None else if Corrects(items[0], id) then Some(items[0]) else FindCorrection(items[1..], id)
  }

  function Newest(sources: seq<Support>): int {
    if sources == [] then 0
    else
      var before := Newest(sources[..|sources| - 1]);
      var last := sources[|sources| - 1].sequence;
      if last > before then last else before
  }

  /** The correction is backed by user messages only, all later than what it corrects. */
  predicate LaterUserSources(correction: Item, corrected: Item) {
    forall i :: 0 <= i < |correction.sources| ==>
      correction.sources[i].role == User && correction.sources[i].sequence > Newest(corrected.sources)
  }

  function SupersessionFault(items: seq<Item>, corrected: Item, correctedBy: Option<string>): Option<Error> {
    var correction := FindCorrection(items, correctedBy);
    if correction.None? || !LaterUserSources(correction.value, corrected) then Some(SupersessionInvalid) else None
  }

  function RetainedFault(prior: Item, items: seq<Item>): Option<Error> {
    var retained := FindItem(items, prior.id);
    if retained.None? || retained.value.(supersededBy := prior.supersededBy) != prior then Some(RetainedItemChanged)
    else if prior.supersededBy.Some? && retained.value.supersededBy != prior.supersededBy then Some(SupersessionChanged)
    else if retained.value.supersededBy != prior.supersededBy then SupersessionFault(items, prior, retained.value.supersededBy)
    else None
  }

  function RetainedFaults(priors: seq<Item>, items: seq<Item>): Option<Error> {
    if priors == [] then None
    else
      var fault := RetainedFault(priors[0], items);
      if fault.Some? then fault else RetainedFaults(priors[1..], items)
  }

  /** Whether the quote occurs at or behind an offset. */
  predicate OccursFrom(text: string, quote: string, offset: nat)
    decreases |text| - offset
  {
    offset + |quote| <= |text| && (text[offset..offset + |quote|] == quote || OccursFrom(text, quote, offset + 1))
  }

  function FindMessage(messages: seq<Message>, id: string): (r: Option<Message>)
    ensures r.Some? ==> r.value in messages && r.value.id == id
  {
    if messages == [] then None else if messages[0].id == id then Some(messages[0]) else FindMessage(messages[1..], id)
  }

  function SupportFault(item: Item, support: Support, messages: seq<Message>): Option<Error> {
    var m := FindMessage(messages, support.messageId);
    if m.None? || m.value.role != support.role || m.value.sequence != support.sequence
       || m.value.createdAt != support.recordedAt || !OccursFrom(m.value.originalText, support.quote, 0)
    then Some(QuoteInvalid)
    else if item.kind != Context && item.kind != AssistantProposal && m.value.role != User then Some(AssistantPromotion)
    else None
  }

  function SupportFaults(item: Item, sources: seq<Support>, messages: seq<Message>): Option<Error> {
    if sources == [] then None
    else
      var fault := SupportFault(item, sources[0], messages);
      if fault.Some? then fault else SupportFaults(item, sources[1..], messages)
  }

  function NewFault(item: Item, items: seq<Item>, messages: seq<Message>): Option<Error> {
    var fault := if item.supersededBy.Some? then SupersessionFault(items, item, item.supersededBy) else None;
    if fault.Some? then fault else SupportFaults(item, item.sources, messages)
  }

  function NewFaults(candidates: seq<Item>, oldIds: set<string>, items: seq<Item>, messages: seq<Message>): Option<Error> {
    if candidates == [] then None
    else
      var fault := if candidates[0].id in oldIds then None else NewFault(candidates[0], items, messages);
      if fault.Some? then fault else NewFaults(candidates[1..], oldIds, items, messages)
  }

  predicate DistinctItems(items: seq<Item>) {
    forall i, k :: 0 <= i < k < |items| ==> items[i].id != items[k].id
  }

  function Ids(items: seq<Item>): set<string> {
    set item | item in items :: item.id
  }

  function PriorItems(previous: Option<Checkpoint>): seq<Item> {
    if previous.Some? then previous.value.items else []
  }

  function PriorThrough(previous: Option<Checkpoint>): int {
    if previous.Some? then previous.value.throughSequence else 0
  }

  /** The messages the checkpoint says it covers. */
  function Covered(t: Thread, c: Checkpoint): seq<Message> {
    First(Between(t.messages, c.fromSequence, c.throughSequence), MAX_BATCH + 1)
  }

  function ContentFault(c: Checkpoint, previous: Option<Checkpoint>, messages: seq<Message>): Option<Error> {
    if |messages| != c.throughSequence - c.fromSequence + 1 || |messages| > MAX_BATCH || SourceDigest(messages) != c.sourceDigest
    then Some(SourceChanged)
    else if !DistinctItems(c.items) then Some(DuplicateItem)
    else
      var fault := RetainedFaults(PriorItems(previous), c.items);
      if fault.Some? then fault else NewFaults(c.items, Ids(PriorItems(previous)), c.items, messages)
  }

  /** Ok(None) when the checkpoint builds on another predecessor than the latest. */
  function PublishTo(t: Thread, c: Checkpoint, used: set<string>): Result<Option<Thread>, Error> {
    var previous := Latest(t.checkpoints);
    if (if previous.Some? then Some(previous.value.id) else None) != c.parentId then Ok(None)
    else if c.fromSequence != PriorThrough(previous) + 1 then Err(CheckpointGap)
    else
      var fault := ContentFault(c, previous, Covered(t, c));
      if fault.Some? then Err(fault.value)
      else if c.throughSequence < c.fromSequence || c.id in used then Err(InsertRejected)
      else Ok(Some(t.(checkpoints := t.checkpoints + [c], summary := Some(c.narrative), summaryThrough := c.throughSequence)))
  }

  function PublishCheckpoint(s: Store, c: Checkpoint): Result<(Store, bool), Error> {
    if !Parses(c) then Err(SchemaInvalid)
    else if (c.scope.tenantId, c.scope.ownerId) !in s.owners then Err(OwnerNotActive)
    else if !InScope(s, c.scope) then Err(ThreadNotFound)
    else
      match PublishTo(s.threads[c.scope.threadId], c, s.checkpointIds)
      case Err(e) => Err(e)
      case Ok(None) => Ok((s, false))
      case Ok(Some(t)) =>
        Ok((s.(threads := s.threads[c.scope.threadId := t], checkpointIds := s.checkpointIds + {c.id}), true))
  }

  // ------------------------------------------------------------------------
  // Runs
  // ------------------------------------------------------------------------

  datatype Op =
    | OpenOp(scope: Scope)
    | OwnersOp(owners: set<(string, string)>)
    | AppendOp(scope: Scope, id: string, role: Role, text: string, key: string, now: int)
    | PublishOp(checkpoint: Checkpoint)

  /** A refused transaction leaves the tables as they were. */
  function Apply(s: Store, op: Op): Store {
    match op
    case OpenOp(scope) =>
      if scope.threadId in s.threads then s
      else s.(threads := s.threads[scope.threadId := Thread(scope, [], [], None, 0, 1)])
    case OwnersOp(owners) => s.(owners := owners)
    case AppendOp(scope, id, role, text, key, now) =>
      var r := AppendMessage(s, scope, id, role, text, key, now);
      if r.Ok? then r.value.0 else s
    case PublishOp(c) =>
      var r := PublishCheckpoint(s, c);
      if r.Ok? then r.value.0 else s
  }

  function Run(s: Store, ops: seq<Op>): Store {
    if ops == [] then s else Apply(Run(s, ops[..|ops| - 1]), ops[|ops| - 1])
  }

  const EMPTY := Store({}, map[], {}, {})
}
