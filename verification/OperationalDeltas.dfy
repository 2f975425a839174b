/** The replayable change feed of a tenant (finnor-os/packages/db/operational-deltas.ts):
    cursors as text, and pages read behind a cursor while deltas are appended and a
    prefix of them is purged. */
module OperationalDeltas {
  import opened Basics
  import Decimal

  // ------------------------------------------------------------------------
  // Cursors
  // ------------------------------------------------------------------------

  predicate IsHex(c: char) {
    '0' <= c <= '9' || 'a' <= c <= 'f' || 'A' <= c <= 'F'
  }

  const SCOPE_LENGTH := 36

  /** Hyphens at four places, the version digit and the variant digit restricted, hex
      digits elsewhere, in either case. */
  predicate IsScope(s: string) {
    && |s| == SCOPE_LENGTH
    && (forall i :: 0 <= i < SCOPE_LENGTH ==>
          if i == 8 || i == 13 || i == 18 || i == 23 then s[i] == '-'
          else if i == 14 then '1' <= s[i] <= '5'
          else if i == 19 then s[i] in ['8', '9', 'a', 'b', 'A', 'B']
          else IsHex(s[i]))
  }

  ghost predicate AllIn(s: string, characters: string) {
    forall i :: 0 <= i < |s| ==> s[i] in characters
  }

  const HEX := "0123456789abcdefABCDEF"

  /** A UUID of version 1 to 5 and the standard variant, group by group. */
  ghost predicate IsUuid(s: string) {
    && |s| == 36
    && AllIn(s[..8], HEX) && s[8] == '-'
    && AllIn(s[9..13], HEX) && s[13] == '-'
    && s[14] in "12345" && AllIn(s[15..18], HEX) && s[18] == '-'
    && s[19] in "89abAB" && AllIn(s[20..23], HEX) && s[23] == '-'
    && AllIn(s[24..], HEX)
  }

  lemma HexExactly(c: char)
    ensures IsHex(c) <==> c in HEX
  {
    if IsHex(c) {
      if c <= '9' {
        assert c == HEX[c as int - '0' as int];
      } else if 'a' <= c {
        assert c == HEX[10 + (c as int - 'a' as int)];
      } else {
        assert c == HEX[16 + (c as int - 'A' as int)];
      }
    }
  }

  lemma HexPart(s: string, from: nat, to: nat)
    requires from <= to <= |s|
    ensures AllIn(s[from..to], HEX) <==> forall i :: from <= i < to ==> IsHex(s[i])
  {
    forall i | from <= i < to ensures IsHex(s[i]) <==> s[from..to][i - from] in HEX {
      HexExactly(s[i]);
    }
  }

  lemma ScopeIsUuid(s: string)
    ensures IsScope(s) <==> IsUuid(s)
  {
    if |s| == 36 {
      HexPart(s, 0, 8);
      HexPart(s, 9, 13);
      HexPart(s, 15, 18);
      HexPart(s, 20, 23);
      HexPart(s, 24, 36);
      assert s[24..36] == s[24..] && s[0..8] == s[..8];
      assert s[14] in "12345" <==> '1' <= s[14] <= '5';
    }
  }

  function Encode(scope: string, n: nat): string {
    scope + ":" + Decimal.Print(n)
  }

  datatype Cursor = Cursor(scope: string, num: nat)

  function Decode(value: string): Option<Cursor> {
    if |value| <= SCOPE_LENGTH || !IsScope(value[..SCOPE_LENGTH]) || value[SCOPE_LENGTH] != ':'
       || !Decimal.IsCanonical(value[SCOPE_LENGTH + 1..])
    then None
    else Some(Cursor(value[..SCOPE_LENGTH], Decimal.Value(value[SCOPE_LENGTH + 1..])))
  }

  /** Decoding undoes encoding for every well-formed scope, and for no other. */
  lemma DecodeEncode(scope: string, n: nat)
    requires |scope| == SCOPE_LENGTH
    ensures Decode(Encode(scope, n)) == if IsScope(scope) then Some(Cursor(scope, n)) else None
  {
    var text := Encode(scope, n);
    assert text[..SCOPE_LENGTH] == scope;
    assert text[SCOPE_LENGTH + 1..] == Decimal.Print(n);
    Decimal.ValueOfPrint(n);
  }

  /** Encoding undoes decoding: a cursor has one text only. */
  lemma EncodeDecode(value: string)
    requires Decode(value).Some?
    ensures Encode(Decode(value).value.scope, Decode(value).value.num) == value
    ensures IsScope(Decode(value).value.scope)
  {
    Decimal.PrintOfValue(value[SCOPE_LENGTH + 1..]);
    assert value == value[..SCOPE_LENGTH] + ":" + value[SCOPE_LENGTH + 1..];
  }

  // ------------------------------------------------------------------------
  // The feed
  // ------------------------------------------------------------------------

  datatype Delta = Delta(num: nat, change: string)

  /** last is the tenant's high-water mark; kept are the retained deltas in order. */
  datatype Feed = Feed(scope: string, last: nat, kept: seq<Delta>)

  datatype Page = Page(resync: bool, cursor: string, deltas: seq<Delta>, hasMore: bool)
  datatype Error = InvalidCursor | ScopeMismatch | OutOfRange

  const MAX_PAGE := 250
  const MAX_BIGINT := 9223372036854775807

  /** An absent, zero or meaningless limit means a full page. */
  function Limit(requested: Option<int>): (r: int)
    ensures 1 <= r <= MAX_PAGE
  {
    var asked := if requested.None? || requested.value == 0 then MAX_PAGE else requested.value;
    if asked > MAX_PAGE then MAX_PAGE else if asked < 1 then 1 else asked
  }

  /** What a limit asks for: 250 without one or for zero, else from 1 to 250. */
  ghost predicate PageSize(requested: Option<int>, n: int) {
    match requested
    case None => n == 250
    case Some(asked) => if asked == 0 then n == 250 else 1 <= n <= 250 && (n < 250 ==> asked <= n) && (n > 1 ==> n <= asked)
  }

  lemma LimitExactly(requested: Option<int>, n: int)
    ensures PageSize(requested, n) <==> n == Limit(requested)
  {
  }

  function Minimum(kept: seq<Delta>): Option<int> {
    if kept == [] then None
    else
      var before := Minimum(kept[..|kept| - 1]);
      var last := kept[|kept| - 1].num;
      Some(if before.Some? && before.value < last then before.value else last)
  }

  function Behind(kept: seq<Delta>, num: int): seq<Delta> {
    if kept == [] then []
    else
      var rest := Behind(kept[1..], num);
      if kept[0].num > num then [kept[0]] + rest else rest
  }

  function First(deltas: seq<Delta>, n: int): seq<Delta>
    requires n >= 0
  {
    if |deltas| <= n then deltas else deltas[..n]
  }

  function PageBehind(feed: Feed, num: nat, limit: int): Page
    requires limit >= 1
  {
    var rows := First(Behind(feed.kept, num), limit + 1);
    var deltas := First(rows, limit);
    var at := if deltas == [] then num else deltas[|deltas| - 1].num;
    Page(false, Encode(feed.scope, at), deltas, |rows| > limit)
  }

  /** No cursor establishes one at the high-water mark. */
  function Read(feed: Feed, cursor: Option<string>, requested: Option<int>): Result<Page, Error> {
    if cursor.None? || cursor.value == "" then Ok(Page(false, Encode(feed.scope, feed.last), [], false))
    else
      var decoded := Decode(cursor.value);
      if decoded.None? then Err(InvalidCursor)
      else if decoded.value.scope != feed.scope then Err(ScopeMismatch)
      else
        var minimum := if Minimum(feed.kept).Some? then Minimum(feed.kept).value else feed.last + 1;
        if decoded.value.num < minimum - 1 then Ok(Page(true, Encode(feed.scope, feed.last), [], false))
        else if decoded.value.num > MAX_BIGINT then Err(OutOfRange)
        else Ok(PageBehind(feed, decoded.value.num, Limit(requested)))
  }

  // ------------------------------------------------------------------------
  // Feeds and their history
  // ------------------------------------------------------------------------

  /** The history is everything ever appended, numbered from one; a feed keeps a suffix. */
  ghost predicate FeedSound(feed: Feed, history: seq<Delta>) {
    && IsScope(feed.scope) && |history| == feed.last && |feed.kept| <= feed.last <= MAX_BIGINT
    && (forall i :: 0 <= i < |history| ==> history[i].num == i + 1)
    && feed.kept == history[feed.last - |feed.kept|..]
  }

  lemma {:induction false} MinimumOfRising(kept: seq<Delta>, start: int)
    requires forall i :: 0 <= i < |kept| ==> kept[i].num == start + i
    ensures Minimum(kept) == if kept == [] then None else Some(start)
  {
    if kept != [] {
      MinimumOfRising(kept[..|kept| - 1], start);
    }
  }

  lemma {:induction false} BehindOfRising(kept: seq<Delta>, start: int, num: int)
    requires forall i :: 0 <= i < |kept| ==> kept[i].num == start + i
    ensures Behind(kept, num) ==
      if num < start then kept else if num - start + 1 <= |kept| then kept[num - start + 1..] else []
    decreases |kept|
  {
    if kept != [] {
      BehindOfRising(kept[1..], start + 1, num);
      if num < start {
        assert kept == [kept[0]] + kept[1..];
      } else if num - start + 1 <= |kept| {
        assert kept[1..][num - start..] == kept[num - start + 1..];
      }
    }
  }

  /** The end of the page behind a position. */
  function UpTo(feed: Feed, num: nat, requested: Option<int>): (r: nat)
    requires num <= feed.last
    ensures num <= r <= feed.last
  {
    if num + Limit(requested) < feed.last then num + Limit(requested) else feed.last
  }

  lemma PageIsSlice(feed: Feed, history: seq<Delta>, num: nat, requested: Option<int>)
    requires FeedSound(feed, history) && num <= feed.last && Behind(feed.kept, num) == history[num..]
    ensures PageBehind(feed, num, Limit(requested)) ==
      Page(false, Encode(feed.scope, UpTo(feed, num, requested)), history[num..UpTo(feed, num, requested)],
           UpTo(feed, num, requested) < feed.last)
  {
    RowsOfPage(history, num, Limit(requested), UpTo(feed, num, requested));
  }

  lemma RowsOfPage(history: seq<Delta>, num: nat, limit: nat, upTo: nat)
    requires num <= |history| && limit >= 1 && upTo == if num + limit < |history| then num + limit else |history|
    requires forall i :: 0 <= i < |history| ==> history[i].num == i + 1
    ensures var rows := First(history[num..], limit + 1); var deltas := First(rows, limit);
      && deltas == history[num..upTo] && (|rows| > limit <==> upTo < |history|)
      && (deltas == [] ==> upTo == num) && (deltas != [] ==> deltas[|deltas| - 1].num == upTo)
  {
    var rows := First(history[num..], limit + 1);
    assert First(rows, limit) == history[num..upTo];
    if num < upTo {
      assert history[num..upTo][upTo - num - 1] == history[upTo - 1];
    }
  }

  lemma BehindIsSuffix(feed: Feed, history: seq<Delta>, num: nat)
    requires FeedSound(feed, history) && feed.last - |feed.kept| <= num <= feed.last
    ensures Behind(feed.kept, num) == history[num..]
  {
    BehindOfRising(feed.kept, feed.last - |feed.kept| + 1, num);
  }

  lemma ReadAt(feed: Feed, num: nat, requested: Option<int>, purged: nat)
    requires IsScope(feed.scope) && num <= MAX_BIGINT
    requires Minimum(feed.kept) == if feed.kept == [] then None else Some(purged + 1)
    requires feed.kept == [] ==> purged == feed.last
    ensures Read(feed, Some(Encode(feed.scope, num)), requested) ==
      if num < purged then Ok(Page(true, Encode(feed.scope, feed.last), [], false))
      else Ok(PageBehind(feed, num, Limit(requested)))
  {
    DecodeEncode(feed.scope, num);
  }

  lemma KeptIsRising(feed: Feed, history: seq<Delta>)
    requires FeedSound(feed, history)
    ensures Minimum(feed.kept) == if feed.kept == [] then None else Some(feed.last - |feed.kept| + 1)
  {
    var purged := feed.last - |feed.kept|;
    forall i | 0 <= i < |feed.kept| ensures feed.kept[i].num == purged + 1 + i {
      assert feed.kept[i] == history[purged + i];
    }
    MinimumOfRising(feed.kept, purged + 1);
  }

  lemma ReadIsSlice(feed: Feed, history: seq<Delta>, num: nat, requested: Option<int>)
    requires FeedSound(feed, history) && num <= feed.last
    ensures Read(feed, Some(Encode(feed.scope, num)), requested) ==
      if num < feed.last - |feed.kept| then Ok(Page(true, Encode(feed.scope, feed.last), [], false))
      else Ok(Page(false, Encode(feed.scope, UpTo(feed, num, requested)), history[num..UpTo(feed, num, requested)],
                   UpTo(feed, num, requested) < feed.last))
  {
    KeptIsRising(feed, history);
    ReadAt(feed, num, requested, feed.last - |feed.kept|);
    if num >= feed.last - |feed.kept| {
      BehindIsSuffix(feed, history, num);
      PageIsSlice(feed, history, num, requested);
    }
  }

  /** What a read behind a known position returns: everything between it and the limit or
      the newest delta; or a demand to resynchronise, exactly when a delta behind the
      position has been purged. */
  lemma ReadIsNextDeltas(feed: Feed, history: seq<Delta>, num: nat, requested: Option<int>, size: nat)
    requires FeedSound(feed, history) && num <= feed.last && PageSize(requested, size)
    ensures var upTo := if num + size < feed.last then num + size else feed.last;
      Read(feed, Some(Encode(feed.scope, num)), requested) ==
      if num < feed.last - |feed.kept| then Ok(Page(true, Encode(feed.scope, feed.last), [], false))
      else Ok(Page(false, Encode(feed.scope, upTo), history[num..upTo], upTo < feed.last))
  {
    LimitExactly(requested, size);
    ReadIsSlice(feed, history, num, requested);
  }

  /** A cursor is a UUID, a colon, and a number without sign or leading zeros. */
  ghost predicate IsCursor(text: string, scope: string, n: nat) {
    IsUuid(scope) && text == scope + ":" + Decimal.Print(n)
  }

  /** A text that is no cursor is refused as such, and a cursor of another scope as foreign;
      a number is refused only when it is beyond the column. */
  lemma ReadRefusals(feed: Feed, text: string, requested: Option<int>)
    requires text != ""
    ensures var r := Read(feed, Some(text), requested);
      && (r == Err(InvalidCursor) <==> !exists scope, n :: IsCursor(text, scope, n))
      && (forall scope, n :: IsCursor(text, scope, n) ==> (r == Err(ScopeMismatch) <==> scope != feed.scope))
      && (forall scope, n :: IsCursor(text, scope, n) && r == Err(OutOfRange) ==> n > 9_223_372_036_854_775_807)
      && (r.Err? ==> r.error in {InvalidCursor, ScopeMismatch, OutOfRange})
  {
    forall scope, n: nat | IsCursor(text, scope, n) ensures Decode(text) == Some(Cursor(scope, n)) {
      ScopeIsUuid(scope);
      DecodeEncode(scope, n);
    }
    if Decode(text).Some? {
      EncodeDecode(text);
      ScopeIsUuid(Decode(text).value.scope);
      assert IsCursor(text, Decode(text).value.scope, Decode(text).value.num);
    }
  }

  /** A cursor ahead of the feed is answered with an empty page and keeps its place; only one
      too large for the column is an error. No page hands such a cursor out. */
  lemma AheadIsEmptyPage(feed: Feed, history: seq<Delta>, num: nat, requested: Option<int>)
    requires FeedSound(feed, history) && feed.last < num
    ensures Read(feed, Some(Encode(feed.scope, num)), requested) ==
      if num <= MAX_BIGINT then Ok(Page(false, Encode(feed.scope, num), [], false)) else Err(OutOfRange)
  {
    DecodeEncode(feed.scope, num);
    MinimumOfRising(feed.kept, feed.last - |feed.kept| + 1);
    BehindOfRising(feed.kept, feed.last - |feed.kept| + 1, num);
  }

  // ------------------------------------------------------------------------
  // Following the cursor
  // ------------------------------------------------------------------------

  /** A reader that polls with the cursor it was last given until it is told to resync. */
  datatype Reader = Reader(cursor: string, received: seq<Delta>, resync: bool)
  datatype World = World(feed: Feed, history: seq<Delta>, reader: Reader)

  datatype Op = AppendOp(change: string) | PurgeOp(count: nat) | PollOp(requested: Option<int>)

  function Poll(feed: Feed, reader: Reader, requested: Option<int>): Reader {
    if reader.resync then reader
    else
      var r := Read(feed, Some(reader.cursor), requested);
      if r.Err? then reader
      else if r.value.resync then reader.(resync := true)
      else Reader(r.value.cursor, reader.received + r.value.deltas, false)
  }

  function Apply(w: World, op: Op): World {
    match op
    case AppendOp(change) =>
      if w.feed.last >= MAX_BIGINT then w
      else
        var d := Delta(w.feed.last + 1, change);
        w.(feed := w.feed.(last := w.feed.last + 1, kept := w.feed.kept + [d]), history := w.history + [d])
    case PurgeOp(count) =>
      w.(feed := w.feed.(kept := if count <= |w.feed.kept| then w.feed.kept[count..] else []))
    case PollOp(requested) => w.(reader := Poll(w.feed, w.reader, requested))
  }

  function Run(w: World, ops: seq<Op>): World {
    if ops == [] then w else Apply(Run(w, ops[..|ops| - 1]), ops[|ops| - 1])
  }

  /** The reader stands at a position it has read up to; it may have started ahead of the
      feed, and stays there with nothing received until the feed has caught up. */
  ghost predicate At(w: World, start: nat, position: nat) {
    && FeedSound(w.feed, w.history) && start <= position && (position <= w.feed.last || position == start)
    && w.reader.cursor == Encode(w.feed.scope, position)
    && w.reader.received == (if position <= w.feed.last then w.history[start..position] else [])
    && (w.reader.resync ==> position < w.feed.last - |w.feed.kept|)
  }

  lemma AppendKeepsPlace(w: World, change: string, start: nat, position: nat)
    requires At(w, start, position)
    ensures At(Apply(w, AppendOp(change)), start, position)
  {
    if w.feed.last < MAX_BIGINT {
      var w', d := Apply(w, AppendOp(change)), Delta(w.feed.last + 1, change);
      var n := w.feed.last - |w.feed.kept|;
      PartsOfAppended(w.history, d, n, |w.history|);
      if position <= w.feed.last {
        PartsOfAppended(w.history, d, start, position);
      }
    }
  }

  lemma PurgeKeepsPlace(w: World, count: nat, start: nat, position: nat)
    requires At(w, start, position)
    ensures At(Apply(w, PurgeOp(count)), start, position)
  {
    if count <= |w.feed.kept| {
      assert w.feed.kept[count..] == w.history[w.feed.last - |w.feed.kept| + count..];
    } else {
      assert w.history[w.feed.last..] == [];
    }
  }

  /** A poll moves the reader to the end of its page, or tells it to resynchronise. */
  lemma PollMoves(w: World, requested: Option<int>, start: nat, position: nat) returns (next: nat)
    requires At(w, start, position)
    ensures At(Apply(w, PollOp(requested)), start, next)
    ensures w.reader.resync || position < w.feed.last - |w.feed.kept| ==>
      next == position && Apply(w, PollOp(requested)).reader.resync
    ensures !w.reader.resync && w.feed.last - |w.feed.kept| <= position <= w.feed.last ==>
      next == UpTo(w.feed, position, requested)
    ensures position > w.feed.last ==> next == position && Apply(w, PollOp(requested)) == w
  {
    next := position;
    if !w.reader.resync && position > w.feed.last {
      PollAhead(w, requested, start);
    } else if !w.reader.resync {
      PollReads(w, requested, start, position);
      if position >= w.feed.last - |w.feed.kept| {
        next := UpTo(w.feed, position, requested);
        Slices(w.history, start, position, next);
      }
    }
  }

  lemma PartsOfAppended<T>(s: seq<T>, x: T, a: nat, b: nat)
    requires a <= b <= |s|
    ensures (s + [x])[a..b] == s[a..b] && (s + [x])[a..] == s[a..] + [x]
  {
  }

  lemma Slices<T>(s: seq<T>, a: nat, b: nat, c: nat)
    requires a <= b <= c <= |s|
    ensures s[a..b] + s[b..c] == s[a..c]
  {
  }

  lemma PollAhead(w: World, requested: Option<int>, start: nat)
    requires At(w, start, start) && start > w.feed.last && !w.reader.resync
    ensures Poll(w.feed, w.reader, requested) == w.reader
  {
    AheadIsEmptyPage(w.feed, w.history, start, requested);
  }

  lemma PollReads(w: World, requested: Option<int>, start: nat, position: nat)
    requires At(w, start, position) && !w.reader.resync && position <= w.feed.last
    ensures position < w.feed.last - |w.feed.kept| ==> Poll(w.feed, w.reader, requested) == w.reader.(resync := true)
    ensures position >= w.feed.last - |w.feed.kept| ==>
      var next := UpTo(w.feed, position, requested);
      Poll(w.feed, w.reader, requested)
        == Reader(Encode(w.feed.scope, next), w.reader.received + w.history[position..next], false)
  {
    ReadIsSlice(w.feed, w.history, position, requested);
  }

  lemma ApplyKeepsPlace(w: World, op: Op, start: nat, position: nat) returns (next: nat)
    requires At(w, start, position)
    ensures At(Apply(w, op), start, next)
  {
    next := position;
    match op
    case AppendOp(change) => AppendKeepsPlace(w, change, start, position);
    case PurgeOp(count) => PurgeKeepsPlace(w, count, start, position);
    case PollOp(requested) => next := PollMoves(w, requested, start, position);
  }

  /** A first read without a cursor places the reader at the newest delta. */
  lemma FirstReadEstablishes(feed: Feed, history: seq<Delta>, cursor: Option<string>, requested: Option<int>)
    requires FeedSound(feed, history) && (cursor.None? || cursor.value == "")
    ensures Read(feed, cursor, requested).Ok?
    ensures At(World(feed, history, Reader(Read(feed, cursor, requested).value.cursor, [], false)), feed.last, feed.last)
  {
  }

  /** Whatever is appended and purged between polls, a reader that follows its cursor has
      received every delta behind its start up to its position, each once and in order; and
      it is told to resynchronise only after a delta it has not read was purged. A reader
      that starts ahead of the feed has received nothing until the feed reaches its start. */
  lemma {:induction false} NoSilentGap(w: World, start: nat, ops: seq<Op>) returns (position: nat)
    requires At(w, start, start)
    ensures At(Run(w, ops), start, position)
  {
    if ops == [] {
      position := start;
    } else {
      var n := |ops| - 1;
      var before := NoSilentGap(w, start, ops[..n]);
      position := ApplyKeepsPlace(Run(w, ops[..n]), ops[n], start, before);
    }
  }

  /** In one poll more, the reader either learns of the loss, or moves on by a full page,
      or has everything behind its start, which the feed may not have reached. */
  lemma PollMakesProgress(w: World, start: nat, ops: seq<Op>, requested: Option<int>, size: nat)
    requires At(w, start, start) && PageSize(requested, size)
    ensures var before, after := Run(w, ops), Apply(Run(w, ops), PollOp(requested));
      || after.reader.resync
      || after.reader.received == (if start <= |after.history| then after.history[start..] else [])
      || |after.reader.received| == |before.reader.received| + size
  {
    LimitExactly(requested, size);
    var position := NoSilentGap(w, start, ops);
    var next := PollMoves(Run(w, ops), requested, start, position);
    ProgressFrom(Run(w, ops), Apply(Run(w, ops), PollOp(requested)), start, position, next, requested);
  }

  lemma ProgressFrom(before: World, after: World, start: nat, position: nat, next: nat, requested: Option<int>)
    requires At(before, start, position) && At(after, start, next)
    requires after.feed == before.feed && after.history == before.history
    requires after.reader.resync || next == if position <= before.feed.last then UpTo(before.feed, position, requested) else position
    ensures
      || after.reader.resync
      || after.reader.received == (if start <= |after.history| then after.history[start..] else [])
      || |after.reader.received| == |before.reader.received| + Limit(requested)
  {
    if next == after.feed.last {
      assert after.history[start..next] == after.history[start..];
    }
  }

  // ------------------------------------------------------------------------
  // Starting ahead of the feed
  // ------------------------------------------------------------------------

  /** No further poll changes anything, and none asks for a resync. */
  ghost predicate CaughtUp(w: World) {
    !w.reader.resync && forall requested: Option<int> :: Poll(w.feed, w.reader, requested) == w.reader
  }

  /** A reader that is caught up has received everything appended since. */
  ghost predicate ReceivedSince(first: World, now: World) {
    forall i :: |first.history| <= i < |now.history| ==> now.history[i] in now.reader.received
  }

  ghost predicate MissesNothing(w: World) {
    forall ops: seq<Op> :: CaughtUp(Run(w, ops)) ==> ReceivedSince(w, Run(w, ops))
  }

  lemma {:induction false} HistoryGrows(w: World, ops: seq<Op>)
    ensures |w.history| <= |Run(w, ops).history|
  {
    if ops != [] {
      HistoryGrows(w, ops[..|ops| - 1]);
    }
  }

  /** A reader that stands before the newest delta is moved by the next poll. */
  lemma BehindIsMoved(w: World, start: nat, position: nat)
    requires At(w, start, position) && position < w.feed.last && !w.reader.resync
    ensures Poll(w.feed, w.reader, None) != w.reader
  {
    PollReads(w, None, start, position);
    if position >= w.feed.last - |w.feed.kept| {
      var next := UpTo(w.feed, position, None);
      assert |w.reader.received + w.history[position..next]| == |w.reader.received| + next - position;
    }
  }

  lemma CaughtUpMeansRead(w: World, start: nat, position: nat)
    requires At(w, start, position) && CaughtUp(w)
    ensures position >= w.feed.last
  {
    assert Poll(w.feed, w.reader, None) == w.reader;
    if position < w.feed.last {
      BehindIsMoved(w, start, position);
    }
  }

  lemma StartWithinReceives(w: World, start: nat, ops: seq<Op>)
    requires At(w, start, start) && start <= w.feed.last && CaughtUp(Run(w, ops))
    ensures ReceivedSince(w, Run(w, ops))
  {
    var now := Run(w, ops);
    var position := NoSilentGap(w, start, ops);
    CaughtUpMeansRead(now, start, position);
    HistoryGrows(w, ops);
    ReadToTheEnd(now, start, position, |w.history|);
  }

  lemma ReadToTheEnd(w: World, start: nat, position: nat, from: nat)
    requires At(w, start, position) && position >= w.feed.last && start <= from <= |w.history|
    ensures forall i :: from <= i < |w.history| ==> w.history[i] in w.reader.received
  {
    forall i | from <= i < |w.history| ensures w.history[i] in w.reader.received {
      assert w.history[i] == w.history[start..position][i - start];
    }
  }

  /** One delta appended to a feed that the reader's start is ahead of. */
  lemma StartAheadMisses(w: World, start: nat, change: string)
    requires At(w, start, start) && w.feed.last < start <= MAX_BIGINT
    ensures var now := Run(w, [AppendOp(change)]);
      && |now.history| == |w.history| + 1 && CaughtUp(now) && now.history[|w.history|] !in now.reader.received
  {
    var now := Run(w, [AppendOp(change)]);
    var none: seq<Op> := [];
    assert [AppendOp(change)][..0] == none && Run(w, none) == w;
    AppendKeepsPlace(w, change, start, start);
    forall requested: Option<int> ensures Poll(now.feed, now.reader, requested) == now.reader {
      if start > now.feed.last {
        PollAhead(now, requested, start);
      } else {
        PollReads(now, requested, start, start);
        assert UpTo(now.feed, start, requested) == start && now.history[start..start] == [];
      }
    }
  }

  /** A reader never misses a delta appended after it was placed, exactly when its start was
      not ahead of the feed then. */
  lemma CursorAheadSkips(w: World, start: nat)
    requires At(w, start, start) && start <= MAX_BIGINT
    ensures MissesNothing(w) <==> start <= w.feed.last
  {
    if start <= w.feed.last {
      forall ops: seq<Op> | CaughtUp(Run(w, ops)) ensures ReceivedSince(w, Run(w, ops)) {
        StartWithinReceives(w, start, ops);
      }
    } else {
      StartAheadMisses(w, start, "");
      var now := Run(w, [AppendOp("")]);
      assert CaughtUp(now) && !ReceivedSince(w, now);
    }
  }
}
