/**
 * What catch-up reads and how much of it (src/observability/mirror-catchup.ts): the number and value of each line of
 * the rotated files, the lines past a cursor, their events, and the budget of a run.
 */
module JournalLines {
  import opened MirrorBuffer
  import opened MirrorCatchup
  import opened MirrorRuntime
  import opened Sequences
  import opened Wrappers

  /** How many of the first n lines are not empty. */
  function Count(lines: seq<Line>, n: nat): nat
    requires n <= |lines|
  {
    if n == 0 then 0 else Count(lines, n - 1) + if lines[n - 1] == EmptyLine then 0 else 1
  }

  function CountFiles(files: seq<File>, n: nat): nat
    requires n <= |files|
  {
    if n == 0 then 0 else CountFiles(files, n - 1) + Count(files[n - 1].lines, |files[n - 1].lines|)
  }

  /** At this place stands line i of a file, numbered from 1 and after a million for each day number. */
  predicate ReadsAt(read: seq<CatchupLine>, place: nat, day: Option<nat>, line: Line, i: nat) {
    && place < |read|
    && read[place].offset == (if day.Some? then day.value * 1_000_000 else 0) + i + 1
    && read[place].value == (if line.Json? then Some(line.text) else None)
  }

  ghost predicate AreLinesOf(read: seq<CatchupLine>, day: Option<nat>, lines: seq<Line>, start: nat) {
    forall i: nat :: i < |lines| && lines[i] != EmptyLine ==>
      ReadsAt(read, start + Count(lines, i), day, lines[i], i)
  }

  lemma {:induction false} CountOfPrefix(lines: seq<Line>, n: nat, k: nat)
    requires k <= n <= |lines|
    ensures Count(lines[..n], k) == Count(lines, k) <= Count(lines, n)
  {
    if k > 0 {
      CountOfPrefix(lines, n, k - 1);
      if k < n { CountOfPrefix(lines, n - 1, k); }
    } else if n > 0 {
      CountOfPrefix(lines, n - 1, 0);
    }
  }

  /** The lines of a file that are not empty, in order. */
  lemma {:induction false} FileLinesExactly(day: Option<nat>, lines: seq<Line>)
    ensures |FileLines(day, lines)| == Count(lines, |lines|)
    ensures AreLinesOf(FileLines(day, lines), day, lines, 0)
  {
    hide AreLinesOf;
    if lines == [] {
      NoLines(day);
    } else {
      var n := |lines| - 1;
      FileLinesExactly(day, lines[..n]);
      CountOfPrefix(lines, n, n);
      OneMoreLine(FileLines(day, lines[..n]), day, lines);
    }
  }

  lemma NoLines(day: Option<nat>)
    ensures AreLinesOf([], day, [], 0)
  {}

  lemma OneMoreLine(read: seq<CatchupLine>, day: Option<nat>, lines: seq<Line>)
    requires lines != []
    requires var n := |lines| - 1; AreLinesOf(read, day, lines[..n], 0) && |read| == Count(lines, n)
    ensures AreLinesOf(read + (if lines[|lines| - 1] == EmptyLine then []
                               else [CatchupLine(StableOffset(day, |lines|), ValueOf(lines[|lines| - 1]))]),
                       day, lines, 0)
  {
    hide Count, ReadsAt;
    var init, n := lines[..|lines| - 1], |lines| - 1;
    var after := read + (if lines[n] == EmptyLine then []
                         else [CatchupLine(StableOffset(day, n + 1), ValueOf(lines[n]))]);
    forall i: nat | i < |lines| && lines[i] != EmptyLine ensures ReadsAt(after, 0 + Count(lines, i), day, lines[i], i) {
      if i < n {
        CountOfPrefix(lines, n, i);
        assert init[i] == lines[i] && ReadsAt(read, 0 + Count(init, i), day, init[i], i);
        StillReads(read, after, Count(lines, i), day, lines[i], i);
      } else {
        LastReads(read, day, lines[n], n);
      }
    }
  }

  lemma StillReads(read: seq<CatchupLine>, after: seq<CatchupLine>, place: nat, day: Option<nat>, line: Line, i: nat)
    requires read <= after && ReadsAt(read, place, day, line, i)
    ensures ReadsAt(after, place, day, line, i)
  {}

  lemma LastReads(read: seq<CatchupLine>, day: Option<nat>, line: Line, n: nat)
    requires line != EmptyLine
    ensures ReadsAt(read + [CatchupLine(StableOffset(day, n + 1), ValueOf(line))], |read|, day, line, n)
  {}

  /** All the lines of all the files that are not empty, file by file and in order. */
  lemma {:induction false} AllLinesExactly(files: seq<File>)
    ensures |AllLines(files)| == CountFiles(files, |files|)
    ensures forall f :: 0 <= f < |files| ==>
              AreLinesOf(AllLines(files), files[f].day, files[f].lines, CountFiles(files, f))
  {
    if files != [] {
      var n := |files| - 1;
      AllLinesExactly(files[..n]);
      FileLinesExactly(files[n].day, files[n].lines);
      forall f | 0 <= f <= n ensures CountFiles(files[..n], f) == CountFiles(files, f) {
        CountFilesOfPrefix(files, n, f);
      }
      forall f | 0 <= f < |files|
        ensures AreLinesOf(AllLines(files), files[f].day, files[f].lines, CountFiles(files, f))
      {
        if f < n {
          assert files[..n][f] == files[f];
          LongerRead(AllLines(files[..n]), FileLines(files[n].day, files[n].lines), files[f].day, files[f].lines,
                     CountFiles(files, f));
        } else {
          ShiftedRead(AllLines(files[..n]), FileLines(files[n].day, files[n].lines), files[n].day, files[n].lines);
        }
      }
    }
  }

  lemma {:induction false} CountFilesOfPrefix(files: seq<File>, n: nat, k: nat)
    requires k <= n <= |files|
    ensures CountFiles(files[..n], k) == CountFiles(files, k)
  {
    if k > 0 { CountFilesOfPrefix(files, n, k - 1); }
  }

  lemma LongerRead(read: seq<CatchupLine>, more: seq<CatchupLine>, day: Option<nat>, lines: seq<Line>, start: nat)
    requires AreLinesOf(read, day, lines, start)
    ensures AreLinesOf(read + more, day, lines, start)
  {
    hide Count;
  }

  lemma ShiftedRead(read: seq<CatchupLine>, more: seq<CatchupLine>, day: Option<nat>, lines: seq<Line>)
    requires AreLinesOf(more, day, lines, 0)
    ensures AreLinesOf(read + more, day, lines, |read|)
  {
    hide Count;
  }

  /** The lines past the cursor, all of them and in order. */
  lemma {:induction false} SinceExactly(lines: seq<CatchupLine>, cursor: int)
    ensures Since(lines, cursor) == Filter((line: CatchupLine) => line.offset > cursor, lines)
  {
    hide Filter;
    var later := (line: CatchupLine) => line.offset > cursor;
    if lines == [] {
      FilterNone(later);
    } else {
      var init, last := lines[..|lines| - 1], lines[|lines| - 1];
      SinceExactly(init, cursor);
      FilterSnoc(later, init, last);
      assert init + [last] == lines;
    }
  }

  /** The events of the lines: one line gives what its journal makes of its value, if it has one, and lines add up. */
  lemma {:induction false} EventsExactly(key: string, line: CatchupLine, lines: seq<CatchupLine>, toEvent: Converter)
    ensures var event := if line.value.Some? then toEvent(key, line.value.value, line.offset) else None;
            EventsOf(key, [line] + lines, toEvent)
            == (if event.Some? then [event.value] else []) + EventsOf(key, lines, toEvent)
    ensures EventsOf(key, [], toEvent) == []
  {
    assert ([line] + lines)[1..] == lines;
  }

  /**
   * Catch-up runs while the circuit is healthy and less than half of the queue is in use, and then for as many events
   * as there is room for and the caller allows.
   */
  lemma BudgetExactly(circuit: Circuit, queueDepth: nat, queueCapacity: int, maxEvents: Option<int>)
    ensures var budget := Budget(circuit, queueDepth, queueCapacity, maxEvents);
            && (budget > 0 <==> circuit == Healthy && 2 * queueDepth + 2 <= queueCapacity
                                && (maxEvents.Some? ==> maxEvents.value > 0))
            && (budget > 0 ==>
                  && queueDepth + budget <= queueCapacity && (maxEvents.Some? ==> budget <= maxEvents.value)
                  && (queueDepth + budget == queueCapacity || maxEvents == Some(budget)))
  {}
}
