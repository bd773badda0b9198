// The file-system event listener that re-parses the folder when markdown
// files change, throttled to one re-parse per 100 ms.

module FsEventListener {
  import opened Text
  import opened FolderParser
  import Seqs

  /** A callback registered in `fileDidChange`, known by an identifier. */
  type Callback = nat

  /** The throttle window, in milliseconds. */
  const Window: int := 100

  /** The times at which a re-parse happens, given the times of the refresh
      attempts in order, starting from `lastUpdate = 0`. */
  function Refreshes(attempts: seq<int>): seq<int> {
    if attempts == [] then []
    else
      var before := Refreshes(attempts[..|attempts| - 1]);
      var now := attempts[|attempts| - 1];
      if now > LastUpdate(before) + Window then before + [now] else before
  }

  /** The value of `lastUpdate` after the given re-parses. */
  function LastUpdate(refreshes: seq<int>): int {
    if refreshes == [] then 0 else refreshes[|refreshes| - 1]
  }

  /** Any two re-parses are more than the window apart, and the first one
      comes after the window has passed since time 0. */
  predicate Spaced(refreshes: seq<int>) {
    && (refreshes != [] ==> refreshes[0] > Window)
    && forall i, j :: 0 <= i < j < |refreshes| ==> refreshes[i] + Window < refreshes[j]
  }

  /** Whatever the attempt times, even with a clock that jumps backwards, the
      re-parses are spaced by more than the window, and each of them is one
      of the attempts, in order. */
  lemma {:induction false} RefreshesSpaced(attempts: seq<int>)
    ensures Spaced(Refreshes(attempts))
    ensures Seqs.Subseq(Refreshes(attempts), attempts)
  {
    if attempts != [] {
      var init, now := attempts[..|attempts| - 1], attempts[|attempts| - 1];
      RefreshesSpaced(init);
      var before := Refreshes(init);
      assert attempts == init + [now];
      if now > LastUpdate(before) + Window {
        var r := before + [now];
        forall i, j | 0 <= i < j < |r| ensures r[i] + Window < r[j] {
          if j == |r| - 1 && i < j {
            assert before[i] <= LastUpdate(before) by {
              if i < |before| - 1 {
                assert before[i] + Window < before[|before| - 1];
              }
            }
          }
        }
        Seqs.SubseqAppend(before, init, now);
      } else {
        Seqs.SubseqExtend(before, init, now);
      }
    }
  }

  /** An attempt re-parses exactly when it comes more than the window after
      the last re-parse. */
  lemma RefreshesStep(attempts: seq<int>, now: int)
    ensures var r := Refreshes(attempts + [now]);
      && (now > LastUpdate(Refreshes(attempts)) + Window ==> r == Refreshes(attempts) + [now] && LastUpdate(r) == now)
      && (now <= LastUpdate(Refreshes(attempts)) + Window ==> r == Refreshes(attempts))
  {
    assert (attempts + [now])[..|attempts|] == attempts;
  }

  /** `TodoItemFsEventListener`: the time of the last re-parse, the folder
      the context holds and its parse, and the registered callbacks. The
      calls made to the callbacks are recorded in `calls`, and the attempt
      times in `attempts`. What `parser.parseFolder` reads from the file
      system at the time of an attempt is given to the attempt, as `now`
      is. */
  class TodoItemFsEventListener {
    var lastUpdate: int
    var currentFolder: string
    var parsedFolder: ParsedFolder
    var fileDidChange: seq<Callback>
    var calls: seq<Callback>
    ghost var attempts: seq<int>

    ghost predicate Valid()
      reads this
    {
      lastUpdate == LastUpdate(Refreshes(attempts))
    }

    /** The effect of one refresh attempt at `now`, as `refreshTodos`
        states it; `parsed` is what parsing the folder gives at `now`. */
    twostate predicate Attempted(now: int, parsed: ParsedFolder)
      reads this
    {
      && attempts == old(attempts) + [now]
      && currentFolder == old(currentFolder) && fileDidChange == old(fileDidChange)
      && (now > old(lastUpdate) + Window ==>
            && lastUpdate == now
            && parsedFolder == parsed
            && calls == old(calls) + fileDidChange)
      && (now <= old(lastUpdate) + Window ==>
            && lastUpdate == old(lastUpdate) && parsedFolder == old(parsedFolder) && calls == old(calls))
    }

    constructor(folder: string, parsed: ParsedFolder)
      ensures Valid()
      ensures lastUpdate == 0 && currentFolder == folder && parsedFolder == parsed
      ensures fileDidChange == [] && calls == [] && attempts == []
    {
      lastUpdate := 0;
      currentFolder := folder;
      parsedFolder := parsed;
      fileDidChange := [];
      calls := [];
      attempts := [];
    }

    /** Registers a callback, after the ones already there. */
    method Subscribe(callback: Callback)
      modifies this
      requires Valid()
      ensures Valid()
      ensures fileDidChange == old(fileDidChange) + [callback]
      ensures lastUpdate == old(lastUpdate) && parsedFolder == old(parsedFolder) && currentFolder == old(currentFolder)
      ensures calls == old(calls) && attempts == old(attempts)
    {
      fileDidChange := fileDidChange + [callback];
    }

    /** `refreshTodos` at time `now`: when more than the window has passed
        since the last re-parse, record `now`, re-parse the current folder
        and call every callback in registration order; otherwise do
        nothing. */
    method RefreshTodos(now: int, parsed: ParsedFolder)
      modifies this
      requires Valid()
      ensures Valid()
      ensures Attempted(now, parsed)
    {
      RefreshesStep(attempts, now);
      attempts := attempts + [now];
      if now > lastUpdate + Window {
        lastUpdate := now;
        parsedFolder := parsed;
        var callbacks, log := fileDidChange, calls;
        for k := 0 to |callbacks|
          invariant log == old(calls) + callbacks[..k]
        {
          log := log + [callbacks[k]];
        }
        assert callbacks[..|callbacks|] == callbacks;
        calls := log;
      }
    }

    /** A file was created: attempt a refresh. */
    method OnFileCreated(now: int, parsed: ParsedFolder)
      modifies this
      requires Valid()
      ensures Valid()
      ensures Attempted(now, parsed)
    {
      RefreshTodos(now, parsed);
    }

    /** A document was saved: attempt a refresh only for a markdown file. */
    method OnFileSaved(fileName: string, now: int, parsed: ParsedFolder)
      modifies this
      requires Valid()
      ensures Valid()
      ensures EndsWith(fileName, ".md") ==> Attempted(now, parsed)
      ensures !EndsWith(fileName, ".md") ==> unchanged(this)
    {
      if EndsWith(fileName, ".md") {
        RefreshTodos(now, parsed);
      }
    }

    /** A file was renamed: attempt a refresh. */
    method OnFileRenamed(now: int, parsed: ParsedFolder)
      modifies this
      requires Valid()
      ensures Valid()
      ensures Attempted(now, parsed)
    {
      RefreshTodos(now, parsed);
    }

    /** A file was deleted: attempt a refresh. */
    method OnFileDeleted(now: int, parsed: ParsedFolder)
      modifies this
      requires Valid()
      ensures Valid()
      ensures Attempted(now, parsed)
    {
      RefreshTodos(now, parsed);
    }
  }
}
