/** The read-speed monitor's sliding window (pkg/compose/fetch.go). Times are in nanoseconds. */
module ReadMonitor {
  import opened Base

  const WINDOW_SIZE := 5_000_000_000
  const MAX_SAMPLES := 200

  datatype Sample = Sample(bytes: int, start: int, end: int)

  /** The samples that ended less than a window ago. */
  function Recent(samples: seq<Sample>, now: int): seq<Sample> {
    if samples == [] then []
    else (if samples[0].end > now - WINDOW_SIZE then [samples[0]] else []) + Recent(samples[1..], now)
  }

  function LastOf(samples: seq<Sample>, most: nat): seq<Sample> {
    if |samples| <= most then samples else samples[|samples| - most..]
  }

  function TotalBytes(samples: seq<Sample>): int {
    if samples == [] then 0 else TotalBytes(samples[..|samples| - 1]) + samples[|samples| - 1].bytes
  }

  function TotalTime(samples: seq<Sample>): int {
    if samples == [] then 0
      else TotalTime(samples[..|samples| - 1]) + (samples[|samples| - 1].end - samples[|samples| - 1].start)
  }

  predicate Ordered(samples: seq<Sample>) {
    forall i, j :: 0 <= i < j < |samples| ==> samples[i].end <= samples[j].end
  }

  class Monitor {
    var window: seq<Sample>
    var bytesRead: int
    var readTime: int
    ghost var history: seq<Sample>  // every sample received
    ghost var dropped: nat          // how many of them have left the window
    ghost var lastTick: int

    ghost predicate Valid()
      reads this
    {
      && Ordered(history)
      && DroppedRightly(history, dropped, lastTick) && window == history[dropped..]
      && bytesRead == TotalBytes(history) && readTime == TotalTime(history)
    }

    constructor (ghost now: int)
      ensures Valid() && history == [] && lastTick == now
    {
      window, bytesRead, readTime := [], 0, 0;
      history, dropped, lastTick := [], 0, now;
    }

    method Receive(s: Sample)
      requires Valid() && (history != [] ==> history[|history| - 1].end <= s.end)
      modifies this
      ensures Valid() && history == old(history) + [s] && lastTick == old(lastTick)
      ensures bytesRead == old(bytesRead) + s.bytes && readTime == old(readTime) + (s.end - s.start)
    {
      AppendOrdered(history, s);
      AppendDropped(history, dropped, lastTick, s);
      AppendTotals(history, s);
      bytesRead := bytesRead + s.bytes;
      readTime := readTime + (s.end - s.start);
      window := window + [s];
      history := history + [s];
    }

    /** Trim the window and sum what is left in it. However the trimming went before, the window is the last
        at most 200 of all samples ever received that are recent now. */
    method Tick(now: int) returns (bytesInWindow: int, timeInWindow: int)
      requires Valid() && lastTick <= now
      modifies this
      ensures Valid() && history == old(history) && lastTick == now
      ensures window == LastOf(Recent(history, now), MAX_SAMPLES)
      ensures bytesInWindow == TotalBytes(LastOf(Recent(history, now), MAX_SAMPLES))
      ensures timeInWindow == TotalTime(LastOf(Recent(history, now), MAX_SAMPLES))
      ensures bytesRead == TotalBytes(history)
      ensures |window| <= |history| && window == history[|history| - |window|..]
      ensures forall i :: 0 <= i < |history| ==>
        (i >= |history| - |window| <==> i >= |history| - MAX_SAMPLES && history[i].end > now - WINDOW_SIZE)
    {
      WindowExactly(history, now);
      Trim(now);
      bytesInWindow, timeInWindow := SumWindow();
    }

    method SumWindow() returns (bytesInWindow: int, timeInWindow: int)
      ensures bytesInWindow == TotalBytes(window) && timeInWindow == TotalTime(window)
    {
      bytesInWindow, timeInWindow := 0, 0;
      for i := 0 to |window|
        invariant bytesInWindow == TotalBytes(window[..i]) && timeInWindow == TotalTime(window[..i])
      {
        bytesInWindow := bytesInWindow + window[i].bytes;
        timeInWindow := timeInWindow + (window[i].end - window[i].start);
        assert window[..i + 1][..i] == window[..i];
      }
      assert window[..|window|] == window;
    }

    method Trim(now: int)
      requires Ordered(history) && DroppedRightly(history, dropped, lastTick) && window == history[dropped..]
      requires lastTick <= now
      modifies this`window, this`dropped, this`lastTick
      ensures lastTick == now && DroppedRightly(history, dropped, now) && window == history[dropped..]
      ensures window == LastOf(Recent(history, now), MAX_SAMPLES)
    {
      ghost var d := TrimmedAway(history, dropped, lastTick, now);
      window := TrimWindow(window, now);
      dropped, lastTick := d, now;
    }
  }

  /** How many samples at the front are old. */
  function OldAtFront(window: seq<Sample>, now: int): (n: nat)
    ensures n <= |window| && (n < |window| ==> window[n].end > now - WINDOW_SIZE)
    ensures forall j :: 0 <= j < n ==> window[j].end <= now - WINDOW_SIZE
  {
    if window == [] || window[0].end > now - WINDOW_SIZE then 0 else 1 + OldAtFront(window[1..], now)
  }

  /** Drop the old samples at the front, then all but the last 200. */
  method TrimWindow(window: seq<Sample>, now: int) returns (kept: seq<Sample>)
    ensures kept == LastOf(window[OldAtFront(window, now)..], MAX_SAMPLES)
  {
    var cutoff := now - WINDOW_SIZE;
    var i := 0;
    while i < |window| && window[i].end <= cutoff
      invariant i <= |window|
      invariant OldAtFront(window, now) == i + OldAtFront(window[i..], now)
    {
      assert window[i..][1..] == window[i + 1..];
      i := i + 1;
    }
    kept := window[i..];
    if |kept| > MAX_SAMPLES {
      kept := kept[|kept| - MAX_SAMPLES..];
    }
  }

  predicate DroppedRightly(h: seq<Sample>, dropped: nat, tick: int) {
    dropped <= |h| && forall i :: 0 <= i < dropped ==> i < |h| - MAX_SAMPLES || h[i].end <= tick - WINDOW_SIZE
  }

  /** One more sample, not earlier than the others, keeps the history ordered. */
  lemma AppendOrdered(h: seq<Sample>, s: Sample)
    requires Ordered(h) && (h != [] ==> h[|h| - 1].end <= s.end)
    ensures Ordered(h + [s])
  {
    forall i, j | 0 <= i < j < |h + [s]| ensures (h + [s])[i].end <= (h + [s])[j].end {
      if j == |h| && i < |h| - 1 {
        assert h[i].end <= h[|h| - 1].end;
      }
    }
  }

  /** It leaves what was dropped rightly dropped. */
  lemma AppendDropped(h: seq<Sample>, dropped: nat, tick: int, s: Sample)
    requires DroppedRightly(h, dropped, tick)
    ensures DroppedRightly(h + [s], dropped, tick)
    ensures (h + [s])[dropped..] == h[dropped..] + [s]
  {
    forall i | 0 <= i < dropped ensures i < |h + [s]| - MAX_SAMPLES || (h + [s])[i].end <= tick - WINDOW_SIZE {
      assert (h + [s])[i] == h[i];
    }
  }

  lemma AppendTotals(h: seq<Sample>, s: Sample)
    ensures TotalBytes(h + [s]) == TotalBytes(h) + s.bytes && TotalTime(h + [s]) == TotalTime(h) + (s.end - s.start)
  {
    assert (h + [s])[..|h|] == h;
  }

  lemma WindowIsLastRecent(h: seq<Sample>, dropped: nat, i: nat, tick: int, now: int)
    requires Ordered(h) && DroppedRightly(h, dropped, tick) && tick <= now && dropped + i <= |h|
    requires forall j :: 0 <= j < i ==> h[dropped..][j].end <= now - WINDOW_SIZE
    requires dropped + i < |h| ==> h[dropped..][i].end > now - WINDOW_SIZE
    ensures LastOf(h[dropped..][i..], MAX_SAMPLES) == h[Max(dropped + i, |h| - MAX_SAMPLES)..]
    ensures LastOf(h[dropped..][i..], MAX_SAMPLES) == LastOf(Recent(h, now), MAX_SAMPLES)
    ensures DroppedRightly(h, Max(dropped + i, |h| - MAX_SAMPLES), now)
  {
    forall j | dropped <= j < dropped + i ensures h[j].end <= now - WINDOW_SIZE {
      assert h[j] == h[dropped..][j - dropped];
    }
    DropTwice(h, dropped, i);
    if |h| - MAX_SAMPLES > dropped + i {
      DropTwice(h, dropped + i, |h| - MAX_SAMPLES - dropped - i);
    }
    TrimmedExactly(h, now, dropped + i);
  }

  /** How many samples have left the window once it was trimmed. */
  lemma TrimmedAway(h: seq<Sample>, dropped: nat, tick: int, now: int) returns (d: nat)
    requires Ordered(h) && DroppedRightly(h, dropped, tick) && tick <= now
    ensures DroppedRightly(h, d, now)
    ensures LastOf(h[dropped..][OldAtFront(h[dropped..], now)..], MAX_SAMPLES) == h[d..]
    ensures h[d..] == LastOf(Recent(h, now), MAX_SAMPLES)
  {
    var i := OldAtFront(h[dropped..], now);
    d := Max(dropped + i, |h| - MAX_SAMPLES);
    WindowIsLastRecent(h, dropped, i, tick, now);
  }

  lemma DropTwice(h: seq<Sample>, a: nat, b: nat)
    requires a + b <= |h|
    ensures h[a..][b..] == h[a + b..]
  {
  }

  /** The place in an ordered history from which on samples are recent. */
  lemma {:induction false} RecentIsSuffix(h: seq<Sample>, now: int, k: nat)
    requires k <= |h|
    requires forall i :: 0 <= i < k ==> h[i].end <= now - WINDOW_SIZE
    requires forall i :: k <= i < |h| ==> h[i].end > now - WINDOW_SIZE
    ensures Recent(h, now) == h[k..]
  {
    if h != [] {
      if k > 0 {
        RecentIsSuffix(h[1..], now, k - 1);
        assert h[k..] == h[1..][k - 1..];
      } else {
        RecentIsSuffix(h[1..], now, 0);
      }
    }
  }

  /** If everything before `from` is old or beyond the last 200, and what follows is recent, then cutting to
      the last 200 from there gives the last 200 recent samples of the whole history. */
  lemma TrimmedExactly(h: seq<Sample>, now: int, from: nat)
    requires Ordered(h) && from <= |h|
    requires forall i :: 0 <= i < from ==> i < |h| - MAX_SAMPLES || h[i].end <= now - WINDOW_SIZE
    requires from < |h| ==> h[from].end > now - WINDOW_SIZE
    ensures LastOf(Recent(h, now), MAX_SAMPLES) == h[Max(from, |h| - MAX_SAMPLES)..]
  {
    var k := FirstRecent(h, now);
    RecentIsSuffix(h, now, k);
    FirstRecentAtMost(h, now, from, k);
    CutTwice(h, from, k);
  }

  /** The last recent samples are the end of an ordered history: those among the last 200 that are recent. */
  lemma WindowExactly(h: seq<Sample>, now: int)
    requires Ordered(h)
    ensures var w := LastOf(Recent(h, now), MAX_SAMPLES);
      |w| <= |h| && w == h[|h| - |w|..]
      && forall i :: 0 <= i < |h| ==>
           (i >= |h| - |w| <==> i >= |h| - MAX_SAMPLES && h[i].end > now - WINDOW_SIZE)
  {
    var k := FirstRecent(h, now);
    RecentIsSuffix(h, now, k);
    CutTwice(h, k, k);
  }

  /** No sample before the first recent one is recent, so it does not come after one that is; if it comes
      before, all up to that one are beyond the last 200. */
  lemma FirstRecentAtMost(h: seq<Sample>, now: int, from: nat, k: nat)
    requires from <= |h| && k <= |h| && (from < |h| ==> h[from].end > now - WINDOW_SIZE)
    requires forall i :: 0 <= i < k ==> h[i].end <= now - WINDOW_SIZE
    requires forall i :: k <= i < |h| ==> h[i].end > now - WINDOW_SIZE
    requires forall i :: 0 <= i < from ==> i < |h| - MAX_SAMPLES || h[i].end <= now - WINDOW_SIZE
    ensures k <= from && (k < from ==> from <= |h| - MAX_SAMPLES)
  {
    assert k < from ==> h[from - 1].end > now - WINDOW_SIZE;
  }

  lemma CutTwice(h: seq<Sample>, from: nat, k: nat)
    requires k <= from <= |h| && (k < from ==> from <= |h| - MAX_SAMPLES)
    ensures LastOf(h[k..], MAX_SAMPLES) == h[Max(from, |h| - MAX_SAMPLES)..]
  {
    if |h| - k > MAX_SAMPLES {
      DropTwice(h, k, |h| - MAX_SAMPLES - k);
    }
  }

  function FirstRecent(h: seq<Sample>, now: int): (k: nat)
    requires Ordered(h)
    ensures k <= |h|
    ensures forall i :: 0 <= i < k ==> h[i].end <= now - WINDOW_SIZE
    ensures forall i :: k <= i < |h| ==> h[i].end > now - WINDOW_SIZE
    decreases |h|
  {
    if h == [] then 0
    else if h[|h| - 1].end <= now - WINDOW_SIZE then |h|
    else FirstRecent(h[..|h| - 1], now)
  }
}
