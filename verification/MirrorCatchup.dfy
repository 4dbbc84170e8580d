/** Catching up the mirror from rotated journals: src/observability/mirror-catchup.ts over abstract files. */
module MirrorCatchup {
  import opened Wrappers
  import opened MirrorBuffer
  import opened MirrorRuntime

  const LINES_PER_DAY := 1_000_000

  datatype Line = EmptyLine | Malformed | Json(text: string)

  /** `day` is the yyyymmdd of a rotated file name; the unrotated file has none. */
  datatype File = File(day: Option<nat>, lines: seq<Line>)

  datatype Journal = Journal(key: string, files: seq<File>)

  /** A line with its offset; a malformed one has no value. */
  datatype CatchupLine = CatchupLine(offset: int, value: Option<string>)

  /** toEvent of a journal: from key, line and offset to an event, or None when the line is not one. */
  type Converter = (string, string, int) -> Option<Event>

  function StableOffset(day: Option<nat>, lineNumber: int): int {
    match day
    case None => lineNumber
    case Some(key) => key * LINES_PER_DAY + lineNumber
  }

  function ValueOf(line: Line): Option<string> {
    match line
    case Json(text) => Some(text)
    case _ => None
  }

  /** The non-empty lines of one file. */
  function FileLines(day: Option<nat>, lines: seq<Line>): seq<CatchupLine> {
    if lines == [] then []
    else
      var n := |lines|;
      FileLines(day, lines[..n - 1])
      + if lines[n - 1].EmptyLine? then [] else [CatchupLine(StableOffset(day, n), ValueOf(lines[n - 1]))]
  }

  function AllLines(files: seq<File>): seq<CatchupLine> {
    if files == [] then []
    else AllLines(files[..|files| - 1]) + FileLines(files[|files| - 1].day, files[|files| - 1].lines)
  }

  /** The lines past a cursor, in order. */
  function Since(lines: seq<CatchupLine>, lastOffset: int): seq<CatchupLine> {
    if lines == [] then []
    else
      Since(lines[..|lines| - 1], lastOffset)
      + if lines[|lines| - 1].offset <= lastOffset then [] else [lines[|lines| - 1]]
  }

  lemma {:induction false} SinceConcat(a: seq<CatchupLine>, b: seq<CatchupLine>, lastOffset: int)
    ensures Since(a + b, lastOffset) == Since(a, lastOffset) + Since(b, lastOffset)
  {
    if b == [] {
      assert a + b == a;
    } else {
      SinceConcat(a, b[..|b| - 1], lastOffset);
      assert (a + b)[..|a + b| - 1] == a + b[..|b| - 1];
    }
  }

  /** The line loop over one file: its non-empty lines past the cursor. */
  method ReadFileSince(file: File, lastOffset: int) returns (result: seq<CatchupLine>)
    ensures result == Since(FileLines(file.day, file.lines), lastOffset)
  {
    result := [];
    for index := 0 to |file.lines|
      invariant result == Since(FileLines(file.day, file.lines[..index]), lastOffset)
    {
      assert file.lines[..index + 1][..index] == file.lines[..index];
      ghost var before := FileLines(file.day, file.lines[..index]);
      if file.lines[index].EmptyLine? {
        assert FileLines(file.day, file.lines[..index + 1]) == before;
      } else {
        var line := CatchupLine(StableOffset(file.day, index + 1), ValueOf(file.lines[index]));
        assert FileLines(file.day, file.lines[..index + 1]) == before + [line];
        SinceConcat(before, [line], lastOffset);
        assert [line][..0] == [];
        if line.offset > lastOffset {
          result := result + [line];
        }
      }
    }
    assert file.lines[..|file.lines|] == file.lines;
  }

  /** The file loop of a rotated read. */
  method ReadRotatedSince(files: seq<File>, lastOffset: int) returns (result: seq<CatchupLine>)
    ensures result == Since(AllLines(files), lastOffset)
  {
    hide FileLines;
    result := [];
    for f := 0 to |files|
      invariant result == Since(AllLines(files[..f]), lastOffset)
    {
      assert files[..f + 1][..f] == files[..f];
      SinceConcat(AllLines(files[..f]), FileLines(files[f].day, files[f].lines), lastOffset);
      var lines := ReadFileSince(files[f], lastOffset);
      result := result + lines;
    }
    assert files[..|files|] == files;
  }

  // ---------------------------------------------------------------- one run

  function EventOf(key: string, line: CatchupLine, toEvent: Converter): Option<Event> {
    if line.value.None? then None else toEvent(key, line.value.value, line.offset)
  }

  datatype Consumed = Consumed(events: seq<Event>, cursor: int)

  /** The line loop of one journal: it stops when the budget is used up, even before lines that carry no event. */
  function Consume(key: string, lines: seq<CatchupLine>, cursor: int, budget: nat, toEvent: Converter): (c: Consumed)
    ensures |c.events| <= budget
  {
    if lines == [] || budget == 0 then Consumed([], cursor)
    else
      var event := EventOf(key, lines[0], toEvent);
      if event.None? then Consume(key, lines[1..], lines[0].offset, budget, toEvent)
      else
        var rest := Consume(key, lines[1..], lines[0].offset, budget - 1, toEvent);
        Consumed([event.value] + rest.events, rest.cursor)
  }

  type Offsets = map<string, int>

  function CursorOf(offsets: Offsets, key: string): int {
    if key in offsets then offsets[key] else 0
  }

  function Unseen(journal: Journal, offsets: Offsets): seq<CatchupLine> {
    Since(AllLines(journal.files), CursorOf(offsets, journal.key))
  }

  datatype Progress = Progress(events: seq<Event>, offsets: Offsets)

  function Advance(offsets: Offsets, key: string, cursor: int): Offsets {
    if cursor != CursorOf(offsets, key) then offsets[key := cursor] else offsets
  }

  /** The journal loop: the events that are enqueued and the offsets that are stored. */
  function CatchUp(journals: seq<Journal>, offsets: Offsets, budget: nat, toEvent: Converter): (p: Progress)
    ensures |p.events| <= budget
  {
    if journals == [] || budget == 0 then Progress([], offsets)
    else
      var journal := journals[0];
      var consumed := Consume(journal.key, Unseen(journal, offsets), CursorOf(offsets, journal.key), budget, toEvent);
      var rest := CatchUp(journals[1..], Advance(offsets, journal.key, consumed.cursor), budget - |consumed.events|,
                          toEvent);
      Progress(consumed.events + rest.events, rest.offsets)
  }

  function EventBudget(queueDepth: int, queueCapacity: int, maxEvents: Option<int>): int {
    var remaining := if queueCapacity - queueDepth > 0 then queueCapacity - queueDepth else 0;
    if maxEvents.Some? && maxEvents.value < remaining then maxEvents.value else remaining
  }

  predicate CanRun(circuit: Circuit, queueDepth: int, queueCapacity: int) {
    circuit == Healthy && queueDepth < queueCapacity / 2
  }

  function Budget(circuit: Circuit, queueDepth: int, queueCapacity: int, maxEvents: Option<int>): nat {
    var budget := EventBudget(queueDepth, queueCapacity, maxEvents);
    if CanRun(circuit, queueDepth, queueCapacity) && budget > 0 then budget else 0
  }

  ghost predicate DistinctJournals(journals: seq<Journal>) {
    forall i, j :: 0 <= i < j < |journals| ==> journals[i].key != journals[j].key
  }

  lemma Appended(queue: seq<Event>, capacity: int, event: Event)
    requires |queue| < capacity
    ensures EnqueueResult(queue, capacity, event) == Enqueued(queue + [event], true, None)
  {}

  /** The line loop of one journal: it adds what Consume says and, with room for the whole budget, drops nothing. */
  method EnqueueLines(key: string, unseen: seq<CatchupLine>, lastOffset: int, budget: nat, toEvent: Converter,
                      buffer: MirrorBuffer)
    returns (processed: nat, latestProcessedOffset: int)
    requires |buffer.queue| + budget <= buffer.capacity
    modifies buffer
    ensures var consumed := Consume(key, unseen, lastOffset, budget, toEvent);
            processed == |consumed.events| && latestProcessedOffset == consumed.cursor
              && buffer.queue == old(buffer.queue) + consumed.events
    ensures buffer.droppedEvents == old(buffer.droppedEvents)
            && buffer.droppedLowPriority == old(buffer.droppedLowPriority)
  {
    processed, latestProcessedOffset := 0, lastOffset;
    var n := 0;
    assert unseen[0..] == unseen;
    while n < |unseen| && processed < budget
      invariant n <= |unseen| && processed <= budget
      invariant |buffer.queue| + (budget - processed) <= buffer.capacity
      invariant buffer.droppedEvents == old(buffer.droppedEvents)
                && buffer.droppedLowPriority == old(buffer.droppedLowPriority)
      invariant var consumed := Consume(key, unseen, lastOffset, budget, toEvent);
                var rest := Consume(key, unseen[n..], latestProcessedOffset, budget - processed, toEvent);
                && consumed.cursor == rest.cursor
                && |consumed.events| == processed + |rest.events|
                && old(buffer.queue) + consumed.events == buffer.queue + rest.events
    {
      var line := unseen[n];
      assert unseen[n..][0] == line && unseen[n..][1..] == unseen[n + 1..];
      var event := EventOf(key, line, toEvent);
      latestProcessedOffset := line.offset;
      if event.Some? {
        Appended(buffer.queue, buffer.capacity, event.value);
        var accepted := buffer.Enqueue(event.value);
        processed := processed + 1;
      }
      n := n + 1;
    }
  }

  function Turn(journal: Journal, offsets: Offsets, budget: nat, toEvent: Converter): (c: Consumed)
    ensures |c.events| <= budget
  {
    Consume(journal.key, Unseen(journal, offsets), CursorOf(offsets, journal.key), budget, toEvent)
  }

  /** The first journal takes its turn and the others go on, whatever the budget. */
  lemma OneTurn(journals: seq<Journal>, offsets: Offsets, budget: nat, toEvent: Converter)
    requires journals != []
    ensures var turn := Turn(journals[0], offsets, budget, toEvent);
            var moved := Advance(offsets, journals[0].key, turn.cursor);
            var rest := CatchUp(journals[1..], moved, budget - |turn.events|, toEvent);
            CatchUp(journals, offsets, budget, toEvent) == Progress(turn.events + rest.events, rest.offsets)
  {
    hide Since, AllLines;
    if budget == 0 {
      assert CatchUp(journals[1..], offsets, 0, toEvent) == Progress([], offsets);
    }
  }

  lemma StopsHere(journals: seq<Journal>, offsets: Offsets, toEvent: Converter)
    ensures CatchUp(journals, offsets, 0, toEvent) == Progress([], offsets)
  {}

  lemma NoJournals(offsets: Offsets, budget: nat, toEvent: Converter)
    ensures CatchUp([], offsets, budget, toEvent) == Progress([], offsets)
  {}

  /** The journal loop, once catch-up may run. */
  method EnqueueJournals(journals: seq<Journal>, offsets: Offsets, eventBudget: nat, toEvent: Converter,
                         buffer: MirrorBuffer)
    returns (processed: nat, nextOffsets: Offsets)
    requires DistinctJournals(journals)
    requires |buffer.queue| + eventBudget <= buffer.capacity
    modifies buffer
    ensures var progress := CatchUp(journals, offsets, eventBudget, toEvent);
            && processed == |progress.events|
            && nextOffsets == progress.offsets
            && buffer.queue == old(buffer.queue) + progress.events
    ensures buffer.droppedEvents == old(buffer.droppedEvents)
            && buffer.droppedLowPriority == old(buffer.droppedLowPriority)
  {
    hide Consume, Since, AllLines, CatchUp;
    processed, nextOffsets := 0, offsets;
    assert journals[0..] == journals;
    for j := 0 to |journals|
      invariant processed <= eventBudget
      invariant |buffer.queue| + (eventBudget - processed) <= buffer.capacity
      invariant buffer.droppedEvents == old(buffer.droppedEvents)
                && buffer.droppedLowPriority == old(buffer.droppedLowPriority)
      invariant forall k :: j <= k < |journals| ==>
                  CursorOf(nextOffsets, journals[k].key) == CursorOf(offsets, journals[k].key)
      invariant var progress := CatchUp(journals, offsets, eventBudget, toEvent);
                var rest := CatchUp(journals[j..], nextOffsets, eventBudget - processed, toEvent);
                && progress.offsets == rest.offsets
                && |progress.events| == processed + |rest.events|
                && old(buffer.queue) + progress.events == buffer.queue + rest.events
    {
      if processed >= eventBudget {
        StopsHere(journals[j..], nextOffsets, toEvent);
        return;
      }
      var journal := journals[j];
      assert journals[j..][0] == journal && journals[j..][1..] == journals[j + 1..];
      OneTurn(journals[j..], nextOffsets, eventBudget - processed, toEvent);
      var lastOffset := CursorOf(offsets, journal.key);
      var unseen := ReadRotatedSince(journal.files, lastOffset);
      var count, latestProcessedOffset := EnqueueLines(journal.key, unseen, lastOffset, eventBudget - processed,
                                                       toEvent, buffer);
      processed := processed + count;
      if latestProcessedOffset != lastOffset {
        nextOffsets := nextOffsets[journal.key := latestProcessedOffset];
      }
    }
    NoJournals(nextOffsets, eventBudget - processed, toEvent);
  }

  /**
   * enqueueMirrorCatchupFromJournals with no enqueue in between: what it adds to the queue and the offsets it stores.
   * The budget leaves room for everything it adds, so catch-up itself never evicts or drops an event.
   */
  method EnqueueCatchup(journals: seq<Journal>, offsets: Offsets, circuit: Circuit, buffer: MirrorBuffer,
                        maxEvents: Option<int>, toEvent: Converter)
    returns (processed: nat, nextOffsets: Offsets)
    requires DistinctJournals(journals)
    modifies buffer
    ensures var progress := CatchUp(journals, offsets,
                                    Budget(circuit, |old(buffer.queue)|, buffer.capacity, maxEvents), toEvent);
            && processed == |progress.events|
            && nextOffsets == progress.offsets
            && buffer.queue == old(buffer.queue) + progress.events
    ensures buffer.droppedEvents == old(buffer.droppedEvents)
            && buffer.droppedLowPriority == old(buffer.droppedLowPriority)
  {
    processed, nextOffsets := 0, offsets;
    if !CanRun(circuit, |buffer.queue|, buffer.capacity) { return; }
    var eventBudget := EventBudget(|buffer.queue|, buffer.capacity, maxEvents);
    if eventBudget <= 0 { return; }
    processed, nextOffsets := EnqueueJournals(journals, offsets, eventBudget, toEvent, buffer);
  }

  // ---------------------------------------------------------------- offsets

  ghost predicate Increasing(lines: seq<CatchupLine>) {
    forall i, j :: 0 <= i < j < |lines| ==> lines[i].offset < lines[j].offset
  }

  /** The number of the first line that is not empty, and 0 without one. */
  function FirstNumber(lines: seq<Line>): (n: nat)
    ensures n <= |lines| && (n > 0 ==> !lines[n - 1].EmptyLine?)
  {
    if lines == [] then 0
    else
      var before := FirstNumber(lines[..|lines| - 1]);
      if before > 0 then before else if lines[|lines| - 1].EmptyLine? then 0 else |lines|
  }

  /** The number of the last line that is not empty, and 0 without one. */
  function LastNumber(lines: seq<Line>): (n: nat)
    ensures FirstNumber(lines) <= n <= |lines| && (n > 0 ==> !lines[n - 1].EmptyLine?)
  {
    if lines == [] then 0
    else if lines[|lines| - 1].EmptyLine? then LastNumber(lines[..|lines| - 1])
    else |lines|
  }

  predicate HasLines(file: File) { FirstNumber(file.lines) > 0 }

  function FirstLine(file: File): Line
    requires HasLines(file)
  {
    file.lines[FirstNumber(file.lines) - 1]
  }

  function LastLine(file: File): Line
    requires HasLines(file)
  {
    file.lines[LastNumber(file.lines) - 1]
  }

  /** Two files with lines, and none with lines in between. */
  ghost predicate Successive(files: seq<File>, i: int, j: int) {
    0 <= i < j < |files| && HasLines(files[i]) && HasLines(files[j]) && forall k :: i < k < j ==> !HasLines(files[k])
  }

  /**
   * The later file's first line has a larger offset than the earlier one's last: for rotated files, its number is more
   * than the last number less LINES_PER_DAY for each unit between the two day keys.
   */
  predicate Follows(a: File, b: File) {
    StableOffset(a.day, LastNumber(a.lines)) < StableOffset(b.day, FirstNumber(b.lines))
  }

  ghost predicate WellRotated(files: seq<File>) {
    forall i, j :: Successive(files, i, j) ==> Follows(files[i], files[j])
  }

  lemma IncreasingConcat(a: seq<CatchupLine>, b: seq<CatchupLine>)
    requires b != []
    ensures Increasing(a + b) <==> Increasing(a) && Increasing(b) && (a == [] || a[|a| - 1].offset < b[0].offset)
  {
    var whole := a + b;
    assert forall i :: 0 <= i < |a| ==> whole[i] == a[i];
    assert forall i :: 0 <= i < |b| ==> whole[|a| + i] == b[i];
    if Increasing(whole) {
      if a != [] { assert whole[|a| - 1].offset < whole[|a|].offset; }
      forall i, j | 0 <= i < j < |b| ensures b[i].offset < b[j].offset {
        assert whole[|a| + i].offset < whole[|a| + j].offset;
      }
    }
  }

  lemma {:induction false} FileLinesEnds(day: Option<nat>, lines: seq<Line>)
    ensures var found := FileLines(day, lines);
            && FirstNumber(lines) <= LastNumber(lines) <= |lines|
            && (found == [] <==> FirstNumber(lines) == 0)
            && (found != [] ==>
                  && found[0] == CatchupLine(StableOffset(day, FirstNumber(lines)),
                                             ValueOf(lines[FirstNumber(lines) - 1]))
                  && found[|found| - 1] == CatchupLine(StableOffset(day, LastNumber(lines)),
                                                       ValueOf(lines[LastNumber(lines) - 1])))
  {
    hide StableOffset;
    if lines != [] { FileLinesEnds(day, lines[..|lines| - 1]); }
  }

  lemma {:induction false} FileLinesIncrease(day: Option<nat>, lines: seq<Line>)
    ensures Increasing(FileLines(day, lines))
  {
    hide Increasing, FirstNumber, LastNumber;
    if lines == [] {
      assert Increasing([]) by { NoneIncrease([]); }
    } else {
      var init, n := lines[..|lines| - 1], |lines|;
      FileLinesIncrease(day, init);
      if lines[n - 1].EmptyLine? {
        assert FileLines(day, lines) == FileLines(day, init);
      } else {
        var line := CatchupLine(StableOffset(day, n), ValueOf(lines[n - 1]));
        assert FileLines(day, lines) == FileLines(day, init) + [line];
        FileLinesEnds(day, init);
        NoneIncrease([line]);
        IncreasingConcat(FileLines(day, init), [line]);
      }
    }
  }

  lemma NoneIncrease(lines: seq<CatchupLine>)
    requires |lines| <= 1
    ensures Increasing(lines)
  {}

  /** The last file that has lines. */
  function LastWithLines(files: seq<File>): (index: int)
    ensures -1 <= index < |files|
    ensures index >= 0 ==> HasLines(files[index])
    ensures forall k :: index < k < |files| ==> !HasLines(files[k])
  {
    if files == [] then -1
    else if HasLines(files[|files| - 1]) then |files| - 1
    else LastWithLines(files[..|files| - 1])
  }

  lemma {:induction false} AllLinesEnd(files: seq<File>)
    ensures var all, index := AllLines(files), LastWithLines(files);
            && (all == [] <==> index == -1)
            && (index >= 0 ==> all[|all| - 1].offset == StableOffset(files[index].day, LastNumber(files[index].lines)))
  {
    if files != [] {
      var last := files[|files| - 1];
      AllLinesEnd(files[..|files| - 1]);
      FileLinesEnds(last.day, last.lines);
    }
  }

  lemma SuccessiveInit(files: seq<File>)
    requires files != []
    ensures var init, last := files[..|files| - 1], |files| - 1;
            && (forall i, j :: j != last ==> (Successive(files, i, j) <==> Successive(init, i, j)))
            && (forall i :: Successive(files, i, last) <==> HasLines(files[last]) && i == LastWithLines(init) && i >= 0)
  {}

  /**
   * Stable offsets are strictly increasing over (day, line) exactly when each two successive files follow one another.
   */
  lemma {:induction false} OffsetsIncreaseExactly(files: seq<File>)
    ensures Increasing(AllLines(files)) <==> WellRotated(files)
  {
    hide HasLines, Successive, Follows, FileLines;
    if files == [] {
      assert WellRotated(files) by { NoneSuccessive(files); }
    } else {
      var init, last := files[..|files| - 1], files[|files| - 1];
      OffsetsIncreaseExactly(init);
      SuccessiveInit(files);
      WellRotatedInit(files);
      AllLinesEnd(init);
      FileLinesIncrease(last.day, last.lines);
      FileLinesEnds(last.day, last.lines);
      FollowsMeans(last);
      var found := FileLines(last.day, last.lines);
      if found == [] {
        assert AllLines(files) == AllLines(init);
      } else {
        IncreasingConcat(AllLines(init), found);
      }
    }
  }

  lemma NoneSuccessive(files: seq<File>)
    requires |files| <= 1
    ensures forall i, j :: !Successive(files, i, j)
  {}

  lemma FollowsMeans(file: File)
    ensures HasLines(file) <==> FirstNumber(file.lines) > 0
    ensures forall other :: Follows(other, file) <==>
              StableOffset(other.day, LastNumber(other.lines)) < StableOffset(file.day, FirstNumber(file.lines))
  {}

  lemma WellRotatedInit(files: seq<File>)
    requires files != []
    ensures var init, last := files[..|files| - 1], |files| - 1;
            WellRotated(files) <==>
              WellRotated(init) && (HasLines(files[last]) && LastWithLines(init) >= 0 ==>
                                    Follows(init[LastWithLines(init)], files[last]))
  {
    hide HasLines, Follows;
    SuccessiveInit(files);
    var init, last := files[..|files| - 1], |files| - 1;
    if WellRotated(files) {
      forall i, j | Successive(init, i, j) ensures Follows(init[i], init[j]) {
        assert Successive(files, i, j);
      }
      if HasLines(files[last]) && LastWithLines(init) >= 0 { assert Successive(files, LastWithLines(init), last); }
    } else {
      var i, j :| Successive(files, i, j) && !Follows(files[i], files[j]);
      if j != last { assert Successive(init, i, j); }
    }
  }

  /** One unrotated file, or day files in order whose last line is at most number LINES_PER_DAY, are well rotated. */
  lemma MillionLinesAreEnough(files: seq<File>)
    requires || |files| <= 1
             || ((forall i :: 0 <= i < |files| ==> files[i].day.Some? && LastNumber(files[i].lines) <= LINES_PER_DAY)
                 && forall i, j :: 0 <= i < j < |files| ==> files[i].day.value < files[j].day.value)
    ensures WellRotated(files)
  {
    hide HasLines;
    if |files| <= 1 {
      NoneSuccessive(files);
    } else {
      forall i, j | Successive(files, i, j) ensures Follows(files[i], files[j]) {
        FollowsMeans(files[j]);
        assert files[i].day.value + 1 <= files[j].day.value;
      }
    }
  }

  lemma {:induction false} SinceMembers(lines: seq<CatchupLine>, cursor: int)
    ensures forall line :: line in Since(lines, cursor) <==> line in lines && line.offset > cursor
  {
    if lines != [] {
      SinceMembers(lines[..|lines| - 1], cursor);
      assert lines == lines[..|lines| - 1] + [lines[|lines| - 1]];
    }
  }

  // ---------------------------------------------------------------- resuming one journal

  /** A cursor that stands after the first k lines. */
  ghost predicate StandsAfter(lines: seq<CatchupLine>, k: int, cursor: int) {
    && 0 <= k <= |lines|
    && (forall i :: 0 <= i < k ==> lines[i].offset <= cursor)
    && (forall i :: k <= i < |lines| ==> lines[i].offset > cursor)
  }

  lemma {:induction false} SinceIsSuffix(lines: seq<CatchupLine>, k: int, cursor: int)
    requires StandsAfter(lines, k, cursor)
    ensures Since(lines, cursor) == lines[k..]
  {
    if lines != [] {
      var n := |lines|;
      SinceIsSuffix(lines[..n - 1], if k == n then n - 1 else k, cursor);
      if k < n { assert lines[k..] == lines[..n - 1][k..] + [lines[n - 1]]; }
    }
  }

  lemma {:induction false} SomeStand(lines: seq<CatchupLine>, cursor: int) returns (k: int)
    requires Increasing(lines)
    ensures StandsAfter(lines, k, cursor)
  {
    k := 0;
    while k < |lines| && lines[k].offset <= cursor
      invariant 0 <= k <= |lines|
      invariant forall i :: 0 <= i < k ==> lines[i].offset <= cursor
    {
      k := k + 1;
    }
  }

  /** The lines Consume leaves for the next run. */
  function Left(key: string, lines: seq<CatchupLine>, budget: nat, toEvent: Converter): seq<CatchupLine> {
    if lines == [] || budget == 0 then lines
    else Left(key, lines[1..], if EventOf(key, lines[0], toEvent).None? then budget else budget - 1, toEvent)
  }

  function EventsOf(key: string, lines: seq<CatchupLine>, toEvent: Converter): seq<Event> {
    if lines == [] then []
    else
      var event := EventOf(key, lines[0], toEvent);
      if event.None? then EventsOf(key, lines[1..], toEvent) else [event.value] + EventsOf(key, lines[1..], toEvent)
  }

  /** What the first line adds to the events and leaves of the budget. */
  lemma FirstLineTaken(key: string, lines: seq<CatchupLine>, cursor: int, budget: nat, toEvent: Converter)
    requires lines != [] && budget > 0
    ensures var event := EventOf(key, lines[0], toEvent);
            var less := if event.None? then budget else budget - 1;
            var head := if event.None? then [] else [event.value];
            && Consume(key, lines, cursor, budget, toEvent).events
               == head + Consume(key, lines[1..], lines[0].offset, less, toEvent).events
            && EventsOf(key, lines, toEvent) == head + EventsOf(key, lines[1..], toEvent)
            && Left(key, lines, budget, toEvent) == Left(key, lines[1..], less, toEvent)
  {
    hide EventOf;
  }

  lemma NoLineTaken(key: string, lines: seq<CatchupLine>, cursor: int, budget: nat, toEvent: Converter)
    requires lines == [] || budget == 0
    ensures Consume(key, lines, cursor, budget, toEvent).events == [] && Left(key, lines, budget, toEvent) == lines
  {}

  /** A run hands out the events of the lines it passes and stops early only when the budget is used up. */
  lemma {:induction false} ConsumeTakes(key: string, lines: seq<CatchupLine>, cursor: int, budget: nat,
                                        toEvent: Converter)
    ensures var consumed := Consume(key, lines, cursor, budget, toEvent);
            var left := Left(key, lines, budget, toEvent);
            && EventsOf(key, lines, toEvent) == consumed.events + EventsOf(key, left, toEvent)
            && (|consumed.events| < budget ==> left == [])
  {
    hide EventOf, EventsOf, Left, Consume;
    if lines == [] || budget == 0 {
      NoLineTaken(key, lines, cursor, budget, toEvent);
    } else {
      FirstLineTaken(key, lines, cursor, budget, toEvent);
      var event := EventOf(key, lines[0], toEvent);
      ConsumeTakes(key, lines[1..], lines[0].offset, if event.None? then budget else budget - 1, toEvent);
    }
  }

  lemma {:induction false} ConsumeSplits(key: string, lines: seq<CatchupLine>, cursor: int, b1: nat, b2: nat,
                                         toEvent: Converter)
    ensures var first := Consume(key, lines, cursor, b1, toEvent);
            var second := Consume(key, Left(key, lines, b1, toEvent), first.cursor, b2, toEvent);
            Consume(key, lines, cursor, b1 + b2, toEvent) == Consumed(first.events + second.events, second.cursor)
  {
    if lines != [] && b1 != 0 {
      var event := EventOf(key, lines[0], toEvent);
      ConsumeSplits(key, lines[1..], lines[0].offset, if event.None? then b1 else b1 - 1, b2, toEvent);
    }
  }

  /** The stored cursor stands right before the lines the run left, and never behind where it was. */
  lemma {:induction false} CursorStandsAtLeft(key: string, lines: seq<CatchupLine>, k: int, cursor: int, budget: nat,
                                              toEvent: Converter)
    requires Increasing(lines) && StandsAfter(lines, k, cursor)
    ensures var consumed := Consume(key, lines[k..], cursor, budget, toEvent);
            Since(lines, consumed.cursor) == Left(key, lines[k..], budget, toEvent) && consumed.cursor >= cursor
    decreases |lines| - k
  {
    if k == |lines| || budget == 0 {
      SinceIsSuffix(lines, k, cursor);
    } else {
      assert lines[k..][0] == lines[k] && lines[k..][1..] == lines[k + 1..];
      var event := EventOf(key, lines[k], toEvent);
      CursorStandsAtLeft(key, lines, k + 1, lines[k].offset, if event.None? then budget else budget - 1, toEvent);
    }
  }

  ghost predicate AllWellRotated(journals: seq<Journal>) {
    forall journal :: journal in journals ==> WellRotated(journal.files)
  }

  /** What one journal's turn does to its unseen lines. */
  lemma JournalTurn(journal: Journal, offsets: Offsets, budget: nat, toEvent: Converter)
    requires WellRotated(journal.files)
    ensures var cursor, unseen := CursorOf(offsets, journal.key), Unseen(journal, offsets);
            var consumed := Consume(journal.key, unseen, cursor, budget, toEvent);
            && consumed.cursor >= cursor
            && Unseen(journal, Advance(offsets, journal.key, consumed.cursor))
              == Left(journal.key, unseen, budget, toEvent)
  {
    var lines, cursor := AllLines(journal.files), CursorOf(offsets, journal.key);
    OffsetsIncreaseExactly(journal.files);
    var k := SomeStand(lines, cursor);
    SinceIsSuffix(lines, k, cursor);
    CursorStandsAtLeft(journal.key, lines, k, cursor, budget, toEvent);
  }

  // ---------------------------------------------------------------- resuming all journals

  /** The events still to be caught up, in the order a run with no bound would enqueue them. */
  function Pending(journals: seq<Journal>, offsets: Offsets, toEvent: Converter): seq<Event> {
    if journals == [] then []
    else EventsOf(journals[0].key, Unseen(journals[0], offsets), toEvent) + Pending(journals[1..], offsets, toEvent)
  }

  lemma FirstPending(journals: seq<Journal>, offsets: Offsets, toEvent: Converter)
    requires journals != []
    ensures Pending(journals, offsets, toEvent)
         == EventsOf(journals[0].key, Unseen(journals[0], offsets), toEvent) + Pending(journals[1..], offsets, toEvent)
  {}

  lemma NothingPending(offsets: Offsets, toEvent: Converter)
    ensures Pending([], offsets, toEvent) == []
  {}

  ghost predicate HasKey(journals: seq<Journal>, key: string) {
    exists i :: 0 <= i < |journals| && journals[i].key == key
  }

  /** A run touches the cursors of its own journals only. */
  lemma {:induction false} OtherCursorsStay(journals: seq<Journal>, offsets: Offsets, budget: nat, toEvent: Converter,
                                            key: string)
    requires !HasKey(journals, key)
    ensures CursorOf(CatchUp(journals, offsets, budget, toEvent).offsets, key) == CursorOf(offsets, key)
  {
    hide Consume, Since, AllLines;
    if journals != [] && budget != 0 {
      var journal := journals[0];
      var consumed := Consume(journal.key, Unseen(journal, offsets), CursorOf(offsets, journal.key), budget, toEvent);
      assert journal.key != key;
      assert forall i :: 0 <= i < |journals| - 1 ==> journals[1..][i] == journals[i + 1];
      OtherCursorsStay(journals[1..], Advance(offsets, journal.key, consumed.cursor), budget - |consumed.events|,
                       toEvent, key);
    }
  }

  lemma {:induction false} PendingReadsItsKeys(journals: seq<Journal>, offsets: Offsets, other: Offsets,
                                               toEvent: Converter)
    requires forall i :: 0 <= i < |journals| ==> CursorOf(offsets, journals[i].key) == CursorOf(other, journals[i].key)
    ensures Pending(journals, offsets, toEvent) == Pending(journals, other, toEvent)
  {
    if journals != [] { PendingReadsItsKeys(journals[1..], offsets, other, toEvent); }
  }

  lemma TailIsDistinct(journals: seq<Journal>)
    requires journals != [] && DistinctJournals(journals)
    ensures DistinctJournals(journals[1..]) && !HasKey(journals[1..], journals[0].key)
  {
    assert forall i :: 0 <= i < |journals| - 1 ==> journals[1..][i] == journals[i + 1];
  }

  /**
   * A run with budget b enqueues exactly the first b pending events (all of them when there are fewer), and what stays
   * pending is exactly the rest: no line is skipped and none is read twice.
   */
  lemma {:induction false} CatchUpTakesAPrefix(journals: seq<Journal>, offsets: Offsets, budget: nat,
                                               toEvent: Converter)
    requires DistinctJournals(journals) && AllWellRotated(journals)
    ensures var progress := CatchUp(journals, offsets, budget, toEvent);
            && Pending(journals, offsets, toEvent) == progress.events + Pending(journals, progress.offsets, toEvent)
            && (|progress.events| < budget ==> Pending(journals, progress.offsets, toEvent) == [])
  {
    hide Consume, Since, AllLines, EventsOf, WellRotated, Left, DistinctJournals, HasKey, Advance, CursorOf, CatchUp,
      Pending;
    if budget == 0 {
      StopsHere(journals, offsets, toEvent);
    } else if journals == [] {
      NoJournals(offsets, budget, toEvent);
      NothingPending(offsets, toEvent);
    } else {
      FirstPending(journals, offsets, toEvent);
      FirstPending(journals, CatchUp(journals, offsets, budget, toEvent).offsets, toEvent);
      OneTurn(journals, offsets, budget, toEvent);
      var journal, others := journals[0], journals[1..];
      var cursor, unseen := CursorOf(offsets, journal.key), Unseen(journal, offsets);
      var consumed := Consume(journal.key, unseen, cursor, budget, toEvent);
      var moved := Advance(offsets, journal.key, consumed.cursor);
      TailIsDistinct(journals);
      JournalTurn(journal, offsets, budget, toEvent);
      ConsumeTakes(journal.key, unseen, cursor, budget, toEvent);
      CatchUpTakesAPrefix(others, moved, budget - |consumed.events|, toEvent);
      var rest := CatchUp(others, moved, budget - |consumed.events|, toEvent);
      OtherCursorsStay(others, moved, budget - |consumed.events|, toEvent, journal.key);
      assert Unseen(journal, rest.offsets) == Unseen(journal, moved);
      AdvanceMovesOne(offsets, journal.key, consumed.cursor);
      assert forall i :: 0 <= i < |others| ==> others[i].key != journal.key by { KeysDiffer(others, journal.key); }
      PendingReadsItsKeys(others, offsets, moved, toEvent);
      EmptyHasNoEvents(journal.key, toEvent);
    }
  }

  lemma KeysDiffer(journals: seq<Journal>, key: string)
    requires !HasKey(journals, key)
    ensures forall i :: 0 <= i < |journals| ==> journals[i].key != key
  {}

  lemma AdvanceMovesOne(offsets: Offsets, key: string, cursor: int)
    ensures CursorOf(Advance(offsets, key, cursor), key) == cursor
    ensures forall other :: other != key ==> CursorOf(Advance(offsets, key, cursor), other) == CursorOf(offsets, other)
  {}

  lemma {:induction false} ConsumeStaysAbove(key: string, lines: seq<CatchupLine>, cursor: int, budget: nat,
                                             toEvent: Converter, low: int)
    requires cursor >= low && forall i :: 0 <= i < |lines| ==> lines[i].offset > low
    ensures Consume(key, lines, cursor, budget, toEvent).cursor >= low
  {
    if lines != [] && budget != 0 {
      var event := EventOf(key, lines[0], toEvent);
      ConsumeStaysAbove(key, lines[1..], lines[0].offset, if event.None? then budget else budget - 1, toEvent, low);
    }
  }

  /** No cursor goes back, whatever the files. */
  lemma {:induction false} CursorsOnlyAdvance(journals: seq<Journal>, offsets: Offsets, budget: nat,
                                              toEvent: Converter, key: string)
    ensures CursorOf(CatchUp(journals, offsets, budget, toEvent).offsets, key) >= CursorOf(offsets, key)
  {
    hide Consume, Since, AllLines, CatchUp;
    if journals == [] {
      NoJournals(offsets, budget, toEvent);
    } else {
      var journal, turn := journals[0], Turn(journals[0], offsets, budget, toEvent);
      var unseen, cursor := Unseen(journal, offsets), CursorOf(offsets, journal.key);
      OneTurn(journals, offsets, budget, toEvent);
      SinceMembers(AllLines(journal.files), cursor);
      assert forall i :: 0 <= i < |unseen| ==> unseen[i] in unseen;
      ConsumeStaysAbove(journal.key, unseen, cursor, budget, toEvent, cursor);
      CursorsOnlyAdvance(journals[1..], Advance(offsets, journal.key, turn.cursor), budget - |turn.events|, toEvent,
                         key);
    }
  }

  lemma EmptyHasNoEvents(key: string, toEvent: Converter)
    ensures EventsOf(key, [], toEvent) == []
  {}

  /** The first run stops inside this journal's turn, and the second takes the turn up again. */
  lemma StoppedTurnGoesOn(journals: seq<Journal>, offsets: Offsets, b1: nat, b2: nat, toEvent: Converter)
    requires AllWellRotated(journals) && journals != [] && b1 != 0 && b2 != 0
    requires |Consume(journals[0].key, Unseen(journals[0], offsets), CursorOf(offsets, journals[0].key), b1,
                      toEvent).events| == b1
    ensures var first := CatchUp(journals, offsets, b1, toEvent);
            var second := CatchUp(journals, first.offsets, b2, toEvent);
            CatchUp(journals, offsets, b1 + b2, toEvent) == Progress(first.events + second.events, second.offsets)
  {
    hide Consume, Since, AllLines, EventsOf, WellRotated, Left, CursorOf, Advance, CatchUp;
    OneTurn(journals, offsets, b1, toEvent);
    OneTurn(journals, offsets, b1 + b2, toEvent);
    var journal, others, key := journals[0], journals[1..], journals[0].key;
    var cursor, unseen := CursorOf(offsets, key), Unseen(journal, offsets);
    var c1 := Consume(key, unseen, cursor, b1, toEvent);
    var moved := Advance(offsets, key, c1.cursor);
    AdvanceMovesOne(offsets, key, c1.cursor);
    JournalTurn(journal, offsets, b1, toEvent);
    ConsumeSplits(key, unseen, cursor, b1, b2, toEvent);
    var c2 := Consume(key, Unseen(journal, moved), c1.cursor, b2, toEvent);
    JournalTurn(journal, moved, b2, toEvent);
    AdvanceTwice(offsets, key, c1.cursor, c2.cursor);
    var rest := CatchUp(others, Advance(moved, key, c2.cursor), b2 - |c2.events|, toEvent);
    assert (c1.events + c2.events) + rest.events == c1.events + (c2.events + rest.events);
    StopsHere(others, moved, toEvent);
    OneTurn(journals, moved, b2, toEvent);
  }

  lemma AdvanceTwice(offsets: Offsets, key: string, first: int, second: int)
    requires CursorOf(offsets, key) <= first <= second
    ensures Advance(Advance(offsets, key, first), key, second) == Advance(offsets, key, second)
  {}

  lemma NothingToConsume(key: string, cursor: int, budget: nat, toEvent: Converter)
    ensures Consume(key, [], cursor, budget, toEvent) == Consumed([], cursor)
  {}

  /** A journal with nothing unseen passes its turn. */
  lemma EmptyTurn(journals: seq<Journal>, offsets: Offsets, budget: nat, toEvent: Converter)
    requires journals != [] && Unseen(journals[0], offsets) == []
    ensures CatchUp(journals, offsets, budget, toEvent) == CatchUp(journals[1..], offsets, budget, toEvent)
  {
    hide Since, AllLines;
    NothingToConsume(journals[0].key, CursorOf(offsets, journals[0].key), budget, toEvent);
    if budget == 0 {
      StopsHere(journals[1..], offsets, toEvent);
    } else {
      assert Advance(offsets, journals[0].key, CursorOf(offsets, journals[0].key)) == offsets;
    }
  }

  /**
   * Catch-up is resumable: on unchanged files, b1 and then b2 do exactly what b1 + b2 does, events and cursors alike.
   */
  lemma {:induction false} CatchUpIsResumable(journals: seq<Journal>, offsets: Offsets, b1: nat, b2: nat,
                                              toEvent: Converter)
    requires DistinctJournals(journals) && AllWellRotated(journals)
    ensures var first := CatchUp(journals, offsets, b1, toEvent);
            var second := CatchUp(journals, first.offsets, b2, toEvent);
            CatchUp(journals, offsets, b1 + b2, toEvent) == Progress(first.events + second.events, second.offsets)
  {
    hide Consume, Since, AllLines, EventsOf, WellRotated, Left, DistinctJournals, CursorOf, Advance, CatchUp;
    StopsHere(journals, offsets, toEvent);
    if journals == [] {
      NoJournals(offsets, b1, toEvent);
      NoJournals(offsets, b2, toEvent);
      NoJournals(offsets, b1 + b2, toEvent);
    } else if b2 == 0 {
      StopsHere(journals, CatchUp(journals, offsets, b1, toEvent).offsets, toEvent);
    } else if b1 != 0 {
      OneTurn(journals, offsets, b1, toEvent);
      OneTurn(journals, offsets, b1 + b2, toEvent);
      var journal, others, key := journals[0], journals[1..], journals[0].key;
      var cursor, unseen := CursorOf(offsets, key), Unseen(journal, offsets);
      var c1 := Consume(key, unseen, cursor, b1, toEvent);
      if |c1.events| == b1 {
        StoppedTurnGoesOn(journals, offsets, b1, b2, toEvent);
      } else {
        var moved := Advance(offsets, key, c1.cursor);
        TailIsDistinct(journals);
        JournalTurn(journal, offsets, b1, toEvent);
        ConsumeTakes(key, unseen, cursor, b1, toEvent);
        ConsumeSplits(key, unseen, cursor, b1, b2, toEvent);
        NothingToConsume(key, c1.cursor, b2, toEvent);
        CatchUpIsResumable(others, moved, b1 - |c1.events|, b2, toEvent);
        var first := CatchUp(others, moved, b1 - |c1.events|, toEvent);
        OtherCursorsStay(others, moved, b1 - |c1.events|, toEvent, key);
        assert Unseen(journal, first.offsets) == Unseen(journal, moved) == [];
        EmptyTurn(journals, first.offsets, b2, toEvent);
        var second := CatchUp(others, first.offsets, b2, toEvent);
        assert c1.events + (first.events + second.events) == (c1.events + first.events) + second.events;
      }
    }
  }

  // ---------------------------------------------------------------- when one journal resumes

  /** The lines that can carry an event. */
  function ReadableOf(lines: seq<CatchupLine>): (r: seq<CatchupLine>)
    ensures |r| <= |lines|
  {
    if lines == [] then []
    else (if lines[0].value.Some? then [lines[0]] else []) + ReadableOf(lines[1..])
  }

  lemma ReadableCons(line: CatchupLine, lines: seq<CatchupLine>)
    ensures ReadableOf([line] + lines) == (if line.value.Some? then [line] else []) + ReadableOf(lines)
  {
    assert ([line] + lines)[1..] == lines;
  }

  lemma {:induction false} ReadableConcat(a: seq<CatchupLine>, b: seq<CatchupLine>)
    ensures ReadableOf(a + b) == ReadableOf(a) + ReadableOf(b)
  {
    if a == [] {
      assert a + b == b;
    } else {
      hide ReadableOf;
      var head := if a[0].value.Some? then [a[0]] else [];
      calc {
        ReadableOf(a + b);
      ==  { assert a + b == [a[0]] + (a[1..] + b); ReadableCons(a[0], a[1..] + b); }
        head + ReadableOf(a[1..] + b);
      ==  { ReadableConcat(a[1..], b); }
        head + (ReadableOf(a[1..]) + ReadableOf(b));
      ==
        (head + ReadableOf(a[1..])) + ReadableOf(b);
      ==  { assert a == [a[0]] + a[1..]; ReadableCons(a[0], a[1..]); }
        ReadableOf(a) + ReadableOf(b);
      }
    }
  }

  lemma {:induction false} ReadableMembers(lines: seq<CatchupLine>)
    ensures forall line :: line in ReadableOf(lines) <==> line in lines && line.value.Some?
  {
    if lines != [] {
      ReadableMembers(lines[1..]);
      assert lines == [lines[0]] + lines[1..];
    }
  }

  lemma {:induction false} SinceReadable(lines: seq<CatchupLine>, cursor: int)
    ensures ReadableOf(Since(lines, cursor)) == Since(ReadableOf(lines), cursor)
  {
    if lines != [] {
      var init, last := lines[..|lines| - 1], lines[|lines| - 1];
      SinceReadable(init, cursor);
      assert lines == init + [last];
      ReadableConcat(init, [last]);
      SinceConcat(ReadableOf(init), ReadableOf([last]), cursor);
      SinceOne(last, cursor);
      ReadableConcat(Since(init, cursor), Since([last], cursor));
      SinceConcat(init, [last], cursor);
    }
  }

  lemma SinceOne(line: CatchupLine, cursor: int)
    ensures ReadableOf([line]) == if line.value.Some? then [line] else []
    ensures ReadableOf(Since([line], cursor)) == Since(ReadableOf([line]), cursor)
  {
    assert [line][..0] == [] && [line][1..] == [];
  }

  /** Where a run that goes through all lines leaves the cursor. */
  function EndOf(lines: seq<CatchupLine>, cursor: int): int {
    if lines == [] then cursor else lines[|lines| - 1].offset
  }

  lemma CursorMattersAtTheEnd(key: string, lines: seq<CatchupLine>, cursor: int, other: int, budget: nat,
                              toEvent: Converter)
    ensures var c, d := Consume(key, lines, cursor, budget, toEvent), Consume(key, lines, other, budget, toEvent);
            && c.events == d.events
            && (0 < budget == |c.events| ==> c.cursor == d.cursor)
  {}

  /** Only readable lines use up the budget; a run that stops early stops at one of them. */
  lemma {:induction false} ConsumeReadable(key: string, lines: seq<CatchupLine>, cursor: int, budget: nat,
                                           toEvent: Converter)
    ensures var all := Consume(key, lines, cursor, budget, toEvent);
            var readable := Consume(key, ReadableOf(lines), cursor, budget, toEvent);
            && all.events == readable.events
            && (budget > 0 ==> all.cursor == if |all.events| < budget then EndOf(lines, cursor) else readable.cursor)
  {
    if lines != [] && budget > 0 {
      var event := EventOf(key, lines[0], toEvent);
      var left := if event.None? then budget else budget - 1;
      ConsumeReadable(key, lines[1..], lines[0].offset, left, toEvent);
      if lines[0].value.Some? {
        assert ReadableOf(lines)[1..] == ReadableOf(lines[1..]);
      } else {
        assert ReadableOf(lines) == ReadableOf(lines[1..]);
        CursorMattersAtTheEnd(key, ReadableOf(lines), cursor, lines[0].offset, budget, toEvent);
      }
    }
  }

  lemma ConsumeAgrees(key: string, xs: seq<CatchupLine>, ys: seq<CatchupLine>, cursor: int, budget: nat,
                      toEvent: Converter)
    requires ReadableOf(xs) == ReadableOf(ys) && EndOf(xs, cursor) == EndOf(ys, cursor)
    ensures Consume(key, xs, cursor, budget, toEvent) == Consume(key, ys, cursor, budget, toEvent)
  {
    hide EndOf;
    ConsumeReadable(key, xs, cursor, budget, toEvent);
    ConsumeReadable(key, ys, cursor, budget, toEvent);
  }

  /** The line at which a run stops that uses up its budget. */
  lemma {:induction false} StopsAt(key: string, lines: seq<CatchupLine>, cursor: int, budget: nat, toEvent: Converter)
    returns (k: nat)
    requires budget > 0 && |Consume(key, lines, cursor, budget, toEvent).events| == budget
    ensures k < |lines| && lines[k].value.Some?
    ensures Consume(key, lines, cursor, budget, toEvent).cursor == lines[k].offset
    ensures Left(key, lines, budget, toEvent) == lines[k + 1..]
  {
    var event := EventOf(key, lines[0], toEvent);
    if event.Some? && budget == 1 {
      k := 0;
    } else {
      var rest := StopsAt(key, lines[1..], lines[0].offset, if event.None? then budget else budget - 1, toEvent);
      k := rest + 1;
      assert lines[1..][rest + 1..] == lines[k + 1..];
    }
  }

  ghost predicate ReadableIncrease(lines: seq<CatchupLine>) {
    forall i, j :: 0 <= i < j < |lines| && lines[i].value.Some? && lines[j].value.Some? ==>
      lines[i].offset < lines[j].offset
  }

  ghost predicate EndsHighest(lines: seq<CatchupLine>) {
    forall i :: 0 <= i < |lines| ==> lines[i].offset <= lines[|lines| - 1].offset
  }

  /** The offsets of readable lines increase, and no line has a larger offset than the last one. */
  ghost predicate Resumable(lines: seq<CatchupLine>) { ReadableIncrease(lines) && EndsHighest(lines) }

  lemma SinceAround(before: seq<CatchupLine>, after: seq<CatchupLine>, cursor: int)
    requires forall line :: line in before && line.value.Some? ==> line.offset <= cursor
    requires forall line :: line in after && line.value.Some? ==> line.offset > cursor
    ensures ReadableOf(Since(before + after, cursor)) == ReadableOf(after)
  {
    hide Since, ReadableOf;
    var low, high := ReadableOf(before), ReadableOf(after);
    SinceReadable(before + after, cursor);
    ReadableConcat(before, after);
    SinceConcat(low, high, cursor);
    ReadableMembers(before);
    ReadableMembers(after);
    assert forall i :: 0 <= i < |low| ==> low[i] in low;
    assert forall i :: 0 <= i < |high| ==> high[i] in high;
    SinceIsSuffix(low, |low|, cursor);
    SinceIsSuffix(high, 0, cursor);
  }

  /** A run that stopped at line k finds the same readable lines and the same end as one that goes on. */
  lemma AfterStop(lines: seq<CatchupLine>, k: nat)
    requires Resumable(lines) && k < |lines| && lines[k].value.Some?
    ensures var cursor := lines[k].offset;
            && ReadableOf(Since(lines, cursor)) == ReadableOf(lines[k + 1..])
            && EndOf(Since(lines, cursor), cursor) == EndOf(lines[k + 1..], cursor)
  {
    hide Since, ReadableOf;
    SinceAround(lines[..k + 1], lines[k + 1..], lines[k].offset);
    assert lines == lines[..k + 1] + lines[k + 1..];
    SinceEnd(lines, lines[k].offset);
  }

  lemma SinceEnd(lines: seq<CatchupLine>, cursor: int)
    requires EndsHighest(lines) && lines != []
    ensures var end := lines[|lines| - 1].offset;
            EndOf(Since(lines, cursor), cursor) == if end > cursor then end else cursor
  {
    if lines[|lines| - 1].offset <= cursor { SinceIsSuffix(lines, |lines|, cursor); }
  }

  lemma {:induction false} AllLinesPositive(files: seq<File>)
    ensures forall line :: line in AllLines(files) ==> line.offset > 0
  {
    if files != [] {
      AllLinesPositive(files[..|files| - 1]);
      FileLinesPositive(files[|files| - 1].day, files[|files| - 1].lines);
    }
  }

  lemma {:induction false} FileLinesPositive(day: Option<nat>, lines: seq<Line>)
    ensures forall line :: line in FileLines(day, lines) ==> line.offset > 0
  {
    if lines != [] { FileLinesPositive(day, lines[..|lines| - 1]); }
  }

  lemma NothingSeen(files: seq<File>)
    ensures Since(AllLines(files), 0) == AllLines(files)
  {
    hide Since, AllLines;
    AllLinesPositive(files);
    SinceIsSuffix(AllLines(files), 0, 0);
  }

  /** The second run reads what the first one left, as far as it matters. */
  lemma SecondRunGoesOn(key: string, lines: seq<CatchupLine>, b1: nat, b2: nat, toEvent: Converter)
    requires Resumable(lines) && Since(lines, 0) == lines
    ensures var cursor := Consume(key, lines, 0, b1, toEvent).cursor;
            Consume(key, Since(lines, cursor), cursor, b2, toEvent)
              == Consume(key, Left(key, lines, b1, toEvent), cursor, b2, toEvent)
  {
    hide Since, Consume, Resumable, EndOf;
    ConsumeOfNothing(key, lines, 0, b1, toEvent);
    var consumed := Consume(key, lines, 0, b1, toEvent);
    if b1 > 0 {
      if |consumed.events| == b1 {
        var k := StopsAt(key, lines, 0, b1, toEvent);
        AfterStop(lines, k);
        ConsumeAgrees(key, Since(lines, consumed.cursor), lines[k + 1..], consumed.cursor, b2, toEvent);
      } else {
        ConsumeTakes(key, lines, 0, b1, toEvent);
        ConsumeReadable(key, lines, 0, b1, toEvent);
        NothingPastTheEnd(lines);
      }
    }
  }

  lemma ConsumeOfNothing(key: string, lines: seq<CatchupLine>, cursor: int, budget: nat, toEvent: Converter)
    ensures budget == 0 ==> Consume(key, lines, cursor, budget, toEvent) == Consumed([], cursor)
                            && Left(key, lines, budget, toEvent) == lines
    ensures |Consume(key, lines, cursor, budget, toEvent).events| <= budget
  {}

  lemma NothingPastTheEnd(lines: seq<CatchupLine>)
    requires Resumable(lines)
    ensures Since(lines, EndOf(lines, 0)) == []
  {
    if lines != [] { SinceIsSuffix(lines, |lines|, EndOf(lines, 0)); }
  }

  /** Catching up one journal is its turn. */
  lemma OneJournal(journal: Journal, offsets: Offsets, budget: nat, toEvent: Converter)
    ensures var turn := Turn(journal, offsets, budget, toEvent);
            CatchUp([journal], offsets, budget, toEvent)
              == Progress(turn.events, Advance(offsets, journal.key, turn.cursor))
  {
    hide CatchUp, Turn, Advance;
    var turn := Turn(journal, offsets, budget, toEvent);
    OneTurn([journal], offsets, budget, toEvent);
    assert [journal][1..] == [];
    NoJournals(Advance(offsets, journal.key, turn.cursor), budget - |turn.events|, toEvent);
  }

  ghost predicate Resumes(journal: Journal, b1: nat, b2: nat, toEvent: Converter) {
    var first := CatchUp([journal], map[], b1, toEvent);
    var second := CatchUp([journal], first.offsets, b2, toEvent);
    CatchUp([journal], map[], b1 + b2, toEvent) == Progress(first.events + second.events, second.offsets)
  }

  lemma ResumesOne(journal: Journal, b1: nat, b2: nat, toEvent: Converter)
    requires Resumable(AllLines(journal.files))
    ensures Resumes(journal, b1, b2, toEvent)
  {
    hide CatchUp, AllLines, Since, Consume, Left, Resumable, Advance;
    var lines, key := AllLines(journal.files), journal.key;
    NothingSeen(journal.files);
    OneJournal(journal, map[], b1, toEvent);
    OneJournal(journal, map[], b1 + b2, toEvent);
    var c1 := Consume(key, lines, 0, b1, toEvent);
    var moved := Advance(map[], key, c1.cursor);
    AdvanceMovesOne(map[], key, c1.cursor);
    OneJournal(journal, moved, b2, toEvent);
    var unseen := Since(lines, c1.cursor);
    ConsumeSplits(key, lines, 0, b1, b2, toEvent);
    SecondRunGoesOn(key, lines, b1, b2, toEvent);
    CursorRises(key, lines, 0, b1, toEvent);
    CursorRises(key, lines, c1.cursor, b2, toEvent);
    AdvanceTwice(map[], key, c1.cursor, Consume(key, unseen, c1.cursor, b2, toEvent).cursor);
  }

  lemma CursorRises(key: string, lines: seq<CatchupLine>, cursor: int, budget: nat, toEvent: Converter)
    ensures Consume(key, Since(lines, cursor), cursor, budget, toEvent).cursor >= cursor
  {
    hide Since, Consume;
    var unseen := Since(lines, cursor);
    SinceMembers(lines, cursor);
    assert forall i :: 0 <= i < |unseen| ==> unseen[i] in unseen;
    ConsumeStaysAbove(key, unseen, cursor, budget, toEvent, cursor);
  }

  // ---------------------------------------------------------------- where resuming ends

  /** An event that tells the offset of its line. */
  function MarkOf(offset: nat): Event { Event(Low, seq(offset, _ => 'x')) }

  const MARK_LINES: Converter := (key, text, offset) => if offset >= 0 then Some(MarkOf(offset)) else None

  const NO_EVENTS: Converter := (key, text, offset) => None

  ghost predicate Plain(lines: seq<CatchupLine>) {
    forall line :: line in lines ==> line.offset > 0 && line.value.Some?
  }

  function Marks(lines: seq<CatchupLine>): seq<Event>
    requires Plain(lines)
  {
    seq(|lines|, i requires 0 <= i < |lines| => MarkOf(lines[i].offset))
  }

  lemma {:induction false} ConsumeMarks(key: string, lines: seq<CatchupLine>, cursor: int, budget: nat)
    requires Plain(lines)
    ensures var taken := if budget < |lines| then budget else |lines|;
            Consume(key, lines, cursor, budget, MARK_LINES)
            == Consumed(Marks(lines[..taken]), if taken == 0 then cursor else lines[taken - 1].offset)
  {
    if lines != [] && budget != 0 {
      var taken := if budget < |lines| then budget else |lines|;
      ConsumeMarks(key, lines[1..], lines[0].offset, budget - 1);
      assert EventOf(key, lines[0], MARK_LINES) == Some(MarkOf(lines[0].offset));
      assert Marks(lines[..taken]) == [MarkOf(lines[0].offset)] + Marks(lines[1..][..taken - 1]);
    }
  }

  lemma ReadablePlain(lines: seq<CatchupLine>)
    requires forall line :: line in lines ==> line.offset > 0
    ensures Plain(ReadableOf(lines))
  {
    ReadableMembers(lines);
  }

  /** A run from the start whose budget is the number of readable lines up to line i stops at line i. */
  lemma UpToLine(journal: Journal, i: nat)
    requires i < |AllLines(journal.files)| && AllLines(journal.files)[i].value.Some?
    ensures var lines := AllLines(journal.files);
            var upTo := ReadableOf(lines[..i + 1]);
            var progress := CatchUp([journal], map[], |upTo|, MARK_LINES);
            && Plain(upTo) && progress.events == Marks(upTo)
            && CursorOf(progress.offsets, journal.key) == lines[i].offset
  {
    hide CatchUp, AllLines, Since, Consume;
    var lines, key := AllLines(journal.files), journal.key;
    var upTo, readable := ReadableOf(lines[..i + 1]), ReadableOf(lines);
    NothingSeen(journal.files);
    AllLinesPositive(journal.files);
    OneJournal(journal, map[], |upTo|, MARK_LINES);
    ReadableEnds(lines, i);
    ReadablePlain(lines);
    ConsumeReadable(key, lines, 0, |upTo|, MARK_LINES);
    ConsumeMarks(key, readable, 0, |upTo|);
    assert readable[..|upTo|] == upTo;
  }

  lemma ReadableEnds(lines: seq<CatchupLine>, i: nat)
    requires i < |lines| && lines[i].value.Some?
    ensures var upTo := ReadableOf(lines[..i + 1]);
            && upTo != [] && upTo[|upTo| - 1] == lines[i]
            && ReadableOf(lines) == upTo + ReadableOf(lines[i + 1..])
  {
    assert lines == lines[..i + 1] + lines[i + 1..];
    ReadableConcat(lines[..i + 1], lines[i + 1..]);
    assert lines[..i + 1] == lines[..i] + [lines[i]];
    ReadableConcat(lines[..i], [lines[i]]);
  }

  /** A run with room for every line. */
  lemma AllMarked(journal: Journal, budget: nat)
    requires budget >= |AllLines(journal.files)|
    ensures var readable := ReadableOf(AllLines(journal.files));
            Plain(readable) && CatchUp([journal], map[], budget, MARK_LINES).events == Marks(readable)
  {
    hide CatchUp, AllLines, Since, Consume;
    var lines, key := AllLines(journal.files), journal.key;
    NothingSeen(journal.files);
    AllLinesPositive(journal.files);
    OneJournal(journal, map[], budget, MARK_LINES);
    ReadablePlain(lines);
    ConsumeReadable(key, lines, 0, budget, MARK_LINES);
    ConsumeMarks(key, ReadableOf(lines), 0, budget);
    assert ReadableOf(lines)[..|ReadableOf(lines)|] == ReadableOf(lines);
  }

  /** A run that goes on from a cursor marks only lines past it. */
  lemma MarksPastCursor(journal: Journal, offsets: Offsets, budget: nat, offset: nat)
    requires offset <= CursorOf(offsets, journal.key)
    ensures MarkOf(offset) !in CatchUp([journal], offsets, budget, MARK_LINES).events
  {
    hide CatchUp, AllLines, Since, Consume, CursorOf, MarkOf;
    var cursor := CursorOf(offsets, journal.key);
    var unseen := Unseen(journal, offsets);
    var readable := ReadableOf(unseen);
    OneJournal(journal, offsets, budget, MARK_LINES);
    SinceMembers(AllLines(journal.files), cursor);
    AllLinesPositive(journal.files);
    ReadableMembers(unseen);
    ConsumeReadable(journal.key, unseen, cursor, budget, MARK_LINES);
    ConsumeMarks(journal.key, readable, cursor, budget);
    var taken := if budget < |readable| then budget else |readable|;
    forall k | 0 <= k < taken ensures Marks(readable[..taken])[k] != MarkOf(offset) {
      assert readable[k] in unseen;
      MarkTells(readable[k].offset, offset);
    }
  }

  lemma MarkTells(a: nat, b: nat)
    ensures MarkOf(a) == MarkOf(b) ==> a == b
  {
    assert |MarkOf(a).payload| == a && |MarkOf(b).payload| == b;
  }

  /**
   * A readable line at j whose offset an earlier one at i reaches is skipped by a run that stops at line i and is
   * resumed: the first run takes the lines up to i, and no later run ever takes line j.
   */
  lemma LineIsSkipped(journal: Journal, i: nat, j: nat, b2: nat)
    requires i < j < |AllLines(journal.files)|
    requires var lines := AllLines(journal.files);
             lines[i].value.Some? && lines[j].value.Some? && lines[i].offset >= lines[j].offset
    ensures var lines := AllLines(journal.files);
            var upTo, after := ReadableOf(lines[..i + 1]), ReadableOf(lines[i + 1..]);
            var first := CatchUp([journal], map[], |upTo|, MARK_LINES);
            var second := CatchUp([journal], first.offsets, b2, MARK_LINES);
            && lines[j].offset > 0 && Plain(upTo + after)
            && first.events == Marks(upTo)
            && lines[j] in after && MarkOf(lines[j].offset) !in second.events
            && CatchUp([journal], map[], |lines|, MARK_LINES).events == Marks(upTo + after)
  {
    hide CatchUp, AllLines, Since, Consume, ReadableOf, MarkOf;
    var lines := AllLines(journal.files);
    AllLinesPositive(journal.files);
    UpToLine(journal, i);
    AllMarked(journal, |lines|);
    ReadableEnds(lines, i);
    ReadableMembers(lines[i + 1..]);
    assert lines[i + 1..][j - i - 1] == lines[j];
    var first := CatchUp([journal], map[], |ReadableOf(lines[..i + 1])|, MARK_LINES);
    MarksPastCursor(journal, first.offsets, b2, lines[j].offset);
  }

  lemma SkippedLineDoesNotResume(journal: Journal, i: nat, j: nat) returns (b1: nat, b2: nat)
    requires i < j < |AllLines(journal.files)|
    requires var lines := AllLines(journal.files);
             lines[i].value.Some? && lines[j].value.Some? && lines[i].offset >= lines[j].offset
    ensures !Resumes(journal, b1, b2, MARK_LINES)
  {
    hide CatchUp, AllLines, ReadableOf, MarkOf;
    var lines := AllLines(journal.files);
    var upTo, after := ReadableOf(lines[..i + 1]), ReadableOf(lines[i + 1..]);
    b1, b2 := |upTo|, |lines|;
    LineIsSkipped(journal, i, j, b2);
    AllMarked(journal, b1 + b2);
    ReadableEnds(lines, i);
    var first := CatchUp([journal], map[], b1, MARK_LINES);
    var second := CatchUp([journal], first.offsets, b2, MARK_LINES);
    var all := CatchUp([journal], map[], b1 + b2, MARK_LINES).events;
    var p :| 0 <= p < |after| && after[p] == lines[j];
    assert all[|upTo| + p] == MarkOf(lines[j].offset);
    var both := first.events + second.events;
    assert |upTo| + p < |both| ==> both[|upTo| + p] == second.events[p];
  }

  lemma {:induction false} ConsumeNothing(key: string, lines: seq<CatchupLine>, cursor: int, budget: nat)
    requires budget > 0
    ensures Consume(key, lines, cursor, budget, NO_EVENTS) == Consumed([], EndOf(lines, cursor))
  {
    if lines != [] { ConsumeNothing(key, lines[1..], lines[0].offset, budget); }
  }

  /** Whoever comes to the end and looks again finds a line past the cursor: the cursor moves on. */
  lemma LowEndDoesNotResume(journal: Journal)
    requires !EndsHighest(AllLines(journal.files))
    ensures !Resumes(journal, 1, 1, NO_EVENTS)
  {
    hide CatchUp, AllLines, Since, Consume, Advance;
    var lines, key := AllLines(journal.files), journal.key;
    var end := EndOf(lines, 0);
    NothingSeen(journal.files);
    OneJournal(journal, map[], 1, NO_EVENTS);
    OneJournal(journal, map[], 2, NO_EVENTS);
    ConsumeNothing(key, lines, 0, 1);
    ConsumeNothing(key, lines, 0, 2);
    var moved := Advance(map[], key, end);
    AdvanceMovesOne(map[], key, end);
    OneJournal(journal, moved, 1, NO_EVENTS);
    var unseen := Since(lines, end);
    ConsumeNothing(key, unseen, end, 1);
    SinceMembers(lines, end);
    var i :| 0 <= i < |lines| && lines[i].offset > end;
    assert lines[i] in unseen && unseen[|unseen| - 1] in unseen;
    AdvanceMovesOne(moved, key, EndOf(unseen, end));
  }

  /** No line of the files is malformed. */
  predicate AllReadable(files: seq<File>) {
    forall i, n :: 0 <= i < |files| && 0 <= n < |files[i].lines| ==> !files[i].lines[n].Malformed?
  }

  lemma {:induction false} AllLinesReadable(files: seq<File>)
    requires AllReadable(files)
    ensures forall line :: line in AllLines(files) ==> line.value.Some?
  {
    if files != [] {
      AllLinesReadable(files[..|files| - 1]);
      FileLinesReadable(files[|files| - 1].day, files[|files| - 1].lines);
    }
  }

  lemma {:induction false} FileLinesReadable(day: Option<nat>, lines: seq<Line>)
    requires forall n :: 0 <= n < |lines| ==> !lines[n].Malformed?
    ensures forall line :: line in FileLines(day, lines) ==> line.value.Some?
  {
    if lines != [] { FileLinesReadable(day, lines[..|lines| - 1]); }
  }

  /** Malformed lines apart, only well rotated files resume. */
  lemma ResumableFiles(files: seq<File>)
    ensures WellRotated(files) ==> Resumable(AllLines(files))
    ensures AllReadable(files) && Resumable(AllLines(files)) ==> WellRotated(files)
  {
    hide AllLines, WellRotated;
    OffsetsIncreaseExactly(files);
    if AllReadable(files) { AllLinesReadable(files); }
  }

  /**
   * A journal can be caught up in parts, whatever its converter and the budgets, exactly when the offsets of its
   * readable lines increase and none is larger than that of its last line. A malformed line may break the increase
   * anywhere else.
   */
  lemma ResumableExactly(journal: Journal)
    ensures (forall b1: nat, b2: nat, toEvent: Converter :: Resumes(journal, b1, b2, toEvent)) <==>
              Resumable(AllLines(journal.files))
    ensures AllReadable(journal.files) ==> (Resumable(AllLines(journal.files)) <==> WellRotated(journal.files))
  {
    hide CatchUp, WellRotated, Resumes, AllLines, EndsHighest;
    ResumableFiles(journal.files);
    var lines := AllLines(journal.files);
    if Resumable(lines) {
      forall b1: nat, b2: nat, toEvent: Converter ensures Resumes(journal, b1, b2, toEvent) {
        ResumesOne(journal, b1, b2, toEvent);
      }
    } else if ReadableIncrease(lines) {
      LowEndDoesNotResume(journal);
    } else {
      var i, j :| 0 <= i < j < |lines| && lines[i].value.Some? && lines[j].value.Some?
                  && lines[i].offset >= lines[j].offset;
      var b1, b2 := SkippedLineDoesNotResume(journal, i, j);
    }
  }

  lemma {:induction false} NoLinesBetween(files: seq<File>, f: nat, g: nat)
    requires f < g <= |files| && forall k :: f < k < g ==> !HasLines(files[k])
    ensures AllLines(files[..g]) == AllLines(files[..f + 1])
  {
    if g > f + 1 {
      NoLinesBetween(files, f, g - 1);
      assert files[..g][..g - 1] == files[..g - 1];
      FileLinesEnds(files[g - 1].day, files[g - 1].lines);
    }
  }

  lemma {:induction false} AllLinesPrefix(files: seq<File>, k: nat)
    requires k <= |files|
    ensures AllLines(files[..k]) <= AllLines(files)
  {
    if k < |files| {
      AllLinesPrefix(files[..|files| - 1], k);
      assert files[..|files| - 1][..k] == files[..k];
    } else {
      assert files[..k] == files;
    }
  }

  lemma OneMoreFile(files: seq<File>, n: nat)
    requires n < |files|
    ensures AllLines(files[..n + 1]) == AllLines(files[..n]) + FileLines(files[n].day, files[n].lines)
  {
    hide FileLines;
    assert files[..n + 1][..n] == files[..n];
  }

  /** Successive files: the lines of the later one come right after those of the earlier one. */
  lemma SuccessiveLines(files: seq<File>, f: nat, g: nat)
    requires Successive(files, f, g)
    ensures var before := AllLines(files[..f]) + FileLines(files[f].day, files[f].lines);
            && before == AllLines(files[..f + 1])
            && before + FileLines(files[g].day, files[g].lines) <= AllLines(files)
  {
    hide FileLines, HasLines, AllLines;
    OneMoreFile(files, f);
    OneMoreFile(files, g);
    NoLinesBetween(files, f, g);
    AllLinesPrefix(files, g + 1);
  }

  /**
   * A line too many: where a file does not follow the one before it, a run that stops at the end of the earlier file
   * makes every later run skip the first line of the later one.
   */
  lemma CrowdedDaySkipsALine(journal: Journal, f: nat, g: nat, b2: nat)
    requires Successive(journal.files, f, g) && !Follows(journal.files[f], journal.files[g])
    requires !LastLine(journal.files[f]).Malformed? && !FirstLine(journal.files[g]).Malformed?
    ensures var upTo := ReadableOf(AllLines(journal.files[..f + 1]));
            var skipped := MarkOf(StableOffset(journal.files[g].day, FirstNumber(journal.files[g].lines)));
            var first := CatchUp([journal], map[], |upTo|, MARK_LINES);
            var second := CatchUp([journal], first.offsets, b2, MARK_LINES);
            var all := CatchUp([journal], map[], |AllLines(journal.files)|, MARK_LINES).events;
            && |first.events| == |upTo|
            && skipped !in second.events
            && |upTo| < |all| && all[|upTo|] == skipped
  {
    hide CatchUp, AllLines, MarkOf, Successive, StableOffset, FileLines, FirstLine, LastLine, Follows;
    SuccessiveMeans(journal.files, f, g);
    var n, lines := |AllLines(journal.files[..f + 1])|, AllLines(journal.files);
    LinesAtTheJoin(journal.files, f, g);
    LineIsSkipped(journal, n - 1, n, b2);
    var upTo, after := ReadableOf(lines[..n]), ReadableOf(lines[n..]);
    assert after[0] == lines[n];
    assert (upTo + after)[|upTo|] == lines[n];
  }

  /** The last line of a file and the first of the next one with lines stand next to each other. */
  lemma LinesAtTheJoin(files: seq<File>, f: nat, g: nat)
    requires Successive(files, f, g) && !Follows(files[f], files[g])
    requires !LastLine(files[f]).Malformed? && !FirstLine(files[g]).Malformed?
    ensures var n, lines := |AllLines(files[..f + 1])|, AllLines(files);
            && 0 < n < |lines| && lines[..n] == AllLines(files[..f + 1])
            && lines[n - 1].value.Some? && lines[n].value.Some? && lines[n - 1].offset >= lines[n].offset
            && lines[n].offset == StableOffset(files[g].day, FirstNumber(files[g].lines))
  {
    hide AllLines, Successive, StableOffset, FileLines;
    SuccessiveMeans(files, f, g);
    SuccessiveLines(files, f, g);
    var a, b, lines := files[f], files[g], AllLines(files);
    FileLinesEnds(a.day, a.lines);
    FileLinesEnds(b.day, b.lines);
    var ours, theirs := FileLines(a.day, a.lines), FileLines(b.day, b.lines);
    var n := |AllLines(files[..f + 1])|;
    assert lines[n - 1] == ours[|ours| - 1] && lines[n] == theirs[0];
    assert lines[..n] == AllLines(files[..f + 1]);
  }

  lemma SuccessiveMeans(files: seq<File>, f: nat, g: nat)
    requires Successive(files, f, g)
    ensures f < g < |files| && HasLines(files[f]) && HasLines(files[g])
  {}
}
