// Which runs of paragraphs become chunks, given the paragraphs' token counts
// (groundwork_ingestion/chunker.py).
module Windowing {
  import opened Sequences

  datatype Settings = Settings(minTokens: int, maxTokens: int, overlapTokens: int)

  // Paragraphs `start` up to but not including `end`.
  datatype Window = Window(start: nat, end: nat)

  predicate Within(w: Window, n: nat) {
    w.start < w.end <= n
  }

  function Sum(ss: seq<nat>, a: nat, b: nat): nat
    requires a <= b <= |ss|
  {
    if a == b then 0 else Sum(ss, a, b - 1) + ss[b - 1]
  }

  lemma {:induction false} SumFromFront(ss: seq<nat>, a: nat, b: nat)
    requires a < b <= |ss|
    ensures Sum(ss, a, b) == ss[a] + Sum(ss, a + 1, b)
  {
    if a + 1 < b {
      SumFromFront(ss, a, b - 1);
    }
  }

  function Size(ss: seq<nat>, w: Window): nat
    requires w.start <= w.end <= |ss|
  {
    Sum(ss, w.start, w.end)
  }

  // The shortest run of last paragraphs of `w` that holds `wanted` tokens starts at `k`; all of them
  // if none does, and always one.
  ghost predicate ShortestTail(ss: seq<nat>, wanted: int, w: Window, k: nat)
    requires Within(w, |ss|)
  {
    && w.start <= k < w.end
    && (k == w.start || Sum(ss, k, w.end) >= wanted)
    && forall j | k < j < w.end :: Sum(ss, j, w.end) < wanted
  }

  function TailFrom(ss: seq<nat>, wanted: int, w: Window, k: nat): (r: nat)
    requires Within(w, |ss|) && w.start <= k < w.end
    ensures w.start <= r < w.end
    decreases k
  {
    if k == w.start || Sum(ss, k, w.end) >= wanted then k else TailFrom(ss, wanted, w, k - 1)
  }

  function TailStart(ss: seq<nat>, wanted: int, w: Window): (k: nat)
    requires Within(w, |ss|)
    ensures w.start <= k < w.end
  {
    TailFrom(ss, wanted, w, w.end - 1)
  }

  lemma {:induction false} TailFromIsShortest(ss: seq<nat>, wanted: int, w: Window, k: nat)
    requires Within(w, |ss|) && w.start <= k < w.end
    requires forall j | k < j < w.end :: Sum(ss, j, w.end) < wanted
    ensures ShortestTail(ss, wanted, w, TailFrom(ss, wanted, w, k))
    decreases k
  {
    if k != w.start && Sum(ss, k, w.end) < wanted {
      TailFromIsShortest(ss, wanted, w, k - 1);
    }
  }

  lemma ShortestTailIsUnique(ss: seq<nat>, wanted: int, w: Window, k: nat, r: nat)
    requires Within(w, |ss|) && ShortestTail(ss, wanted, w, k) && ShortestTail(ss, wanted, w, r)
    ensures k == r
  {
  }

  // The overlap is the shortest tail, and the only one.
  lemma TailStartIff(ss: seq<nat>, wanted: int, w: Window, k: nat)
    requires Within(w, |ss|)
    ensures ShortestTail(ss, wanted, w, k) <==> k == TailStart(ss, wanted, w)
  {
    TailFromIsShortest(ss, wanted, w, w.end - 1);
    if ShortestTail(ss, wanted, w, k) {
      ShortestTailIsUnique(ss, wanted, w, k, TailStart(ss, wanted, w));
    }
  }

  lemma {:induction false} SumOfSlice(ss: seq<nat>, w: Window, a: nat, b: nat)
    requires Within(w, |ss|) && a <= b <= w.end - w.start
    ensures Sum(ss[w.start..w.end], a, b) == Sum(ss, w.start + a, w.start + b)
  {
    if a < b {
      SumOfSlice(ss, w, a, b - 1);
    }
  }

  // The overlap depends on the window's own paragraphs only.
  lemma TailOfSlice(ss: seq<nat>, wanted: int, w: Window)
    requires Within(w, |ss|)
    ensures TailStart(ss, wanted, w) == w.start + TailStart(ss[w.start..w.end], wanted, Window(0, w.end - w.start))
  {
    var sub, n := ss[w.start..w.end], w.end - w.start;
    var k := TailStart(sub, wanted, Window(0, n));
    TailStartIff(sub, wanted, Window(0, n), k);
    SumOfSlice(ss, w, k, n);
    forall j | w.start + k < j < w.end ensures Sum(ss, j, w.end) < wanted {
      SumOfSlice(ss, w, j - w.start, n);
    }
    TailStartIff(ss, wanted, w, w.start + k);
  }

  // The windows given out so far, and the one being filled.
  datatype Cut = Cut(start: nat, end: nat, windows: seq<Window>)

  function Filling(c: Cut): Window {
    Window(c.start, c.end)
  }

  function All(c: Cut): seq<Window> {
    c.windows + [Filling(c)]
  }

  function Flushed(ss: seq<nat>, cfg: Settings, c: Cut): Cut
    requires Within(Filling(c), |ss|)
  {
    Cut(TailStart(ss, cfg.overlapTokens, Filling(c)), c.end, All(c))
  }

  predicate Overflows(ss: seq<nat>, cfg: Settings, w: Window)
    requires w.start <= w.end < |ss|
  {
    w.start < w.end && Size(ss, w) + ss[w.end] > cfg.maxTokens
  }

  function Room(ss: seq<nat>, cfg: Settings, c: Cut): (r: Cut)
    requires c.start <= c.end < |ss|
    ensures r.start <= r.end == c.end
  {
    if Overflows(ss, cfg, Filling(c)) then Flushed(ss, cfg, c) else c
  }

  function Settled(ss: seq<nat>, cfg: Settings, c: Cut): (r: Cut)
    requires Within(Filling(c), |ss|)
    ensures r.start < r.end == c.end
  {
    if Size(ss, Filling(c)) >= cfg.minTokens then Flushed(ss, cfg, c) else c
  }

  function Taken(ss: seq<nat>, cfg: Settings, c: Cut): (r: Cut)
    requires c.start <= c.end < |ss|
    ensures r.start < r.end == c.end + 1
  {
    Settled(ss, cfg, Room(ss, cfg, c).(end := c.end + 1))
  }

  function Cuts(ss: seq<nat>, cfg: Settings, n: nat): (c: Cut)
    requires n <= |ss|
    ensures c.end == n && c.start <= n && (n > 0 ==> c.start < n)
  {
    if n == 0 then Cut(0, 0, []) else Taken(ss, cfg, Cuts(ss, cfg, n - 1))
  }

  function Windows(ss: seq<nat>, cfg: Settings): seq<Window> {
    if ss == [] then [] else All(Cuts(ss, cfg, |ss|))
  }

  // ---- what the windows are ----

  // `w` was given out because it had enough tokens or the next paragraph did not fit.
  predicate Full(ss: seq<nat>, cfg: Settings, w: Window)
    requires Within(w, |ss|)
  {
    Size(ss, w) >= cfg.minTokens || (w.end < |ss| && Size(ss, w) + ss[w.end] > cfg.maxTokens)
  }

  // `v`, begun with the paragraphs before `from`, was added to only while it had too few tokens.
  ghost predicate StopsInTime(ss: seq<nat>, cfg: Settings, v: Window, from: nat)
    requires Within(v, |ss|)
  {
    forall e | from < e < v.end && v.start <= e :: Sum(ss, v.start, e) < cfg.minTokens
  }

  // `v` follows `w`: it starts with exactly the overlap, is over the maximum only when it adds no
  // more than one paragraph, and adds another only while it has fewer tokens than the minimum.
  ghost predicate Follows(ss: seq<nat>, cfg: Settings, w: Window, v: Window)
    requires Within(w, |ss|) && Within(v, |ss|)
  {
    && w.end <= v.end
    && ShortestTail(ss, cfg.overlapTokens, w, v.start)
    && Full(ss, cfg, w)
    && (Size(ss, v) > cfg.maxTokens ==> v.end <= w.end + 1)
    && StopsInTime(ss, cfg, v, w.end)
  }

  ghost predicate Chained(ss: seq<nat>, cfg: Settings, ws: seq<Window>) {
    && ws != []
    && (forall i | 0 <= i < |ws| :: Within(ws[i], |ss|))
    && ws[0].start == 0 && (Size(ss, ws[0]) > cfg.maxTokens ==> ws[0].end == 1) && StopsInTime(ss, cfg, ws[0], 0)
    && forall i | 0 < i < |ws| :: Follows(ss, cfg, ws[i - 1], ws[i])
  }

  lemma ChainPrefix(ss: seq<nat>, cfg: Settings, ws: seq<Window>)
    requires Chained(ss, cfg, ws) && |ws| > 1
    ensures Chained(ss, cfg, ws[..|ws| - 1])
  {
    var rest := ws[..|ws| - 1];
    forall i | 0 < i < |rest| ensures Follows(ss, cfg, rest[i - 1], rest[i]) {
      assert rest[i - 1] == ws[i - 1] && rest[i] == ws[i];
    }
  }

  lemma ChainExtends(ss: seq<nat>, cfg: Settings, ws: seq<Window>, v: Window)
    requires Chained(ss, cfg, ws) && Within(v, |ss|) && Follows(ss, cfg, ws[|ws| - 1], v)
    ensures Chained(ss, cfg, ws + [v])
  {
    var all := ws + [v];
    forall i | 0 < i < |all| ensures Follows(ss, cfg, all[i - 1], all[i]) {
      if i < |ws| {
        assert all[i - 1] == ws[i - 1] && all[i] == ws[i];
      }
    }
  }

  lemma FlushKeepsChain(ss: seq<nat>, cfg: Settings, c: Cut)
    requires Within(Filling(c), |ss|) && Full(ss, cfg, Filling(c)) && Chained(ss, cfg, All(c))
    ensures Chained(ss, cfg, All(Flushed(ss, cfg, c)))
  {
    var d := Flushed(ss, cfg, c);
    TailStartIff(ss, cfg.overlapTokens, Filling(c), d.start);
    assert Follows(ss, cfg, Filling(c), Filling(d));
    ChainExtends(ss, cfg, All(c), Filling(d));
  }

  // The window being filled holds nothing but the overlap of the last one given out.
  predicate JustFlushed(c: Cut) {
    c.windows != [] && c.windows[|c.windows| - 1].end == c.end
  }

  lemma GrowthKeepsChain(ss: seq<nat>, cfg: Settings, c: Cut)
    requires c.start < c.end < |ss| && Chained(ss, cfg, All(c))
    requires Size(ss, Filling(c)) + ss[c.end] <= cfg.maxTokens || JustFlushed(c)
    requires Size(ss, Filling(c)) < cfg.minTokens || JustFlushed(c)
    ensures Chained(ss, cfg, All(c.(end := c.end + 1)))
  {
    if c.windows != [] {
      var w := c.windows[|c.windows| - 1];
      assert All(c)[|c.windows| - 1] == w && All(c)[|c.windows|] == Filling(c);
      assert Follows(ss, cfg, w, Filling(c));
      ChainPrefix(ss, cfg, All(c));
      assert All(c)[..|c.windows|] == c.windows;
      ChainExtends(ss, cfg, c.windows, Window(c.start, c.end + 1));
    }
  }

  lemma SettlingKeepsChain(ss: seq<nat>, cfg: Settings, c: Cut)
    requires Within(Filling(c), |ss|) && Chained(ss, cfg, All(c))
    ensures var d := Settled(ss, cfg, c);
      Chained(ss, cfg, All(d)) && (Size(ss, Filling(d)) < cfg.minTokens || JustFlushed(d))
  {
    if Size(ss, Filling(c)) >= cfg.minTokens {
      FlushKeepsChain(ss, cfg, c);
    }
  }

  lemma TakingKeepsChain(ss: seq<nat>, cfg: Settings, c: Cut)
    requires c.start < c.end < |ss| && Chained(ss, cfg, All(c))
    requires Size(ss, Filling(c)) < cfg.minTokens || JustFlushed(c)
    ensures Chained(ss, cfg, All(Room(ss, cfg, c).(end := c.end + 1)))
  {
    if Overflows(ss, cfg, Filling(c)) {
      FlushKeepsChain(ss, cfg, c);
    }
    GrowthKeepsChain(ss, cfg, Room(ss, cfg, c));
  }

  lemma {:induction false} CutsAreChained(ss: seq<nat>, cfg: Settings, n: nat)
    requires 0 < n <= |ss|
    ensures Chained(ss, cfg, All(Cuts(ss, cfg, n)))
    ensures var c := Cuts(ss, cfg, n); Size(ss, Filling(c)) < cfg.minTokens || JustFlushed(c)
  {
    var c := Cuts(ss, cfg, n - 1);
    var grown := Room(ss, cfg, c).(end := n);
    if n == 1 {
      assert All(grown) == [Window(0, 1)];
    } else {
      CutsAreChained(ss, cfg, n - 1);
      TakingKeepsChain(ss, cfg, c);
    }
    SettlingKeepsChain(ss, cfg, grown);
  }

  // Chunks are runs of whole paragraphs, the first from the first paragraph, the last to the last,
  // each starting with exactly the configured overlap of the one before.
  lemma WindowsCover(ss: seq<nat>, cfg: Settings)
    ensures var ws := Windows(ss, cfg); if ss == [] then ws == [] else Chained(ss, cfg, ws) && ws[|ws| - 1].end == |ss|
  {
    if ss != [] {
      CutsAreChained(ss, cfg, |ss|);
    }
  }

  // Read off a chain: neighbours share a paragraph and neither end ever moves back.
  lemma NeighboursOverlap(ss: seq<nat>, cfg: Settings, i: nat)
    requires i + 1 < |Windows(ss, cfg)|
    ensures var ws := Windows(ss, cfg); ws[i].start <= ws[i + 1].start < ws[i].end <= ws[i + 1].end
  {
    WindowsCover(ss, cfg);
    var ws := Windows(ss, cfg);
    assert Follows(ss, cfg, ws[i + 1 - 1], ws[i + 1]);
  }

  lemma {:induction false} EndsRise(ss: seq<nat>, cfg: Settings, ws: seq<Window>)
    requires Chained(ss, cfg, ws)
    ensures forall i | 0 <= i < |ws| :: ws[i].end <= ws[|ws| - 1].end
    decreases |ws|
  {
    if |ws| > 1 {
      var rest := ws[..|ws| - 1];
      ChainPrefix(ss, cfg, ws);
      EndsRise(ss, cfg, rest);
      assert Follows(ss, cfg, ws[|ws| - 2], ws[|ws| - 1]);
    }
  }

  // Every paragraph is in some chunk.
  lemma {:induction false} EveryParagraphIsCovered(ss: seq<nat>, cfg: Settings, ws: seq<Window>, k: nat)
    requires Chained(ss, cfg, ws) && k < ws[|ws| - 1].end
    ensures exists i | 0 <= i < |ws| :: ws[i].start <= k < ws[i].end
    decreases |ws|
  {
    var v := ws[|ws| - 1];
    if k < v.start {
      var w := ws[|ws| - 2];
      assert Follows(ss, cfg, w, v);
      ChainPrefix(ss, cfg, ws);
      var rest := ws[..|ws| - 1];
      EveryParagraphIsCovered(ss, cfg, rest, k);
      var i :| 0 <= i < |rest| && rest[i].start <= k < rest[i].end;
      assert ws[i] == rest[i];
    }
  }

  // The last chunk adds no paragraph to the one before exactly when the last paragraph filled a chunk.
  lemma LastWindowRepeatsIff(ss: seq<nat>, cfg: Settings)
    requires ss != []
    ensures var ws, before := Windows(ss, cfg), Room(ss, cfg, Cuts(ss, cfg, |ss| - 1));
      (|ws| > 1 && ws[|ws| - 2].end == |ss|) <==> Size(ss, Window(before.start, |ss|)) >= cfg.minTokens
  {
    var n := |ss| - 1;
    var room := Room(ss, cfg, Cuts(ss, cfg, n));
    EarlierWindowsEndEarlier(ss, cfg, n);
    var d := Cuts(ss, cfg, |ss|);
    assert d.windows == room.windows || d.windows == room.windows + [Window(room.start, |ss|)];
  }

  lemma EarlierWindowsEndEarlier(ss: seq<nat>, cfg: Settings, n: nat)
    requires n < |ss|
    ensures forall w | w in Room(ss, cfg, Cuts(ss, cfg, n)).windows :: w.end <= n
  {
    var c := Cuts(ss, cfg, n);
    if n > 0 {
      CutsAreChained(ss, cfg, n);
      EndsRise(ss, cfg, All(c));
      forall w | w in c.windows ensures w.end <= n {
        var i :| 0 <= i < |c.windows| && c.windows[i] == w;
        assert All(c)[i] == w;
      }
    }
  }

  // A document of one paragraph becomes two equal chunks exactly when it is long enough for one.
  lemma SingleParagraphWindows(size: nat, cfg: Settings)
    ensures Windows([size], cfg) == if size >= cfg.minTokens then [Window(0, 1), Window(0, 1)] else [Window(0, 1)]
  {
    var ss := [size];
    assert Cuts(ss, cfg, 0) == Cut(0, 0, []);
    assert Sum(ss, 0, 1) == Sum(ss, 0, 0) + ss[0];
  }

  // ---- reading the paragraphs back from the windows ----

  ghost predicate Weighed<T>(ss: seq<nat>, held: seq<seq<T>>) {
    |ss| == |held| && forall i | 0 <= i < |ss| :: ss[i] == |held[i]|
  }

  lemma {:induction false} FlatLength<T>(ss: seq<nat>, held: seq<seq<T>>, a: nat, b: nat)
    requires Weighed(ss, held) && a <= b <= |ss|
    ensures |Flat(held, a, b)| == Sum(ss, a, b)
  {
    if a < b {
      FlatLength(ss, held, a, b - 1);
    }
  }

  // `parts` one after the other, each without what its window shares with the one before.
  function Reread<T>(ss: seq<nat>, ws: seq<Window>, parts: seq<seq<T>>): seq<T>
    requires |parts| == |ws| && forall i | 0 <= i < |ws| :: Within(ws[i], |ss|)
    requires forall i | 0 < i < |ws| :: ws[i].start <= ws[i - 1].end
  {
    if |ws| <= 1 then Flat(parts, 0, |parts|)
    else
      var w, v, n := ws[|ws| - 2], ws[|ws| - 1], |ws| - 1;
      assert ws[n].start <= ws[n - 1].end;
      Reread(ss, ws[..n], parts[..n]) + Drop(parts[n], Sum(ss, v.start, w.end))
  }

  lemma ChainOverlaps(ss: seq<nat>, cfg: Settings, ws: seq<Window>)
    requires Chained(ss, cfg, ws)
    ensures forall i | 0 < i < |ws| :: ws[i].start < ws[i - 1].end <= ws[i].end
  {
    forall i | 0 < i < |ws| ensures ws[i].start < ws[i - 1].end <= ws[i].end {
      assert Follows(ss, cfg, ws[i - 1], ws[i]);
    }
  }

  lemma {:induction false} RereadIsFlat<T>(ss: seq<nat>, cfg: Settings, ws: seq<Window>, held: seq<seq<T>>,
      parts: seq<seq<T>>)
    requires Weighed(ss, held) && Chained(ss, cfg, ws) && |parts| == |ws|
    requires forall i | 0 <= i < |ws| :: parts[i] == Flat(held, ws[i].start, ws[i].end)
    requires forall i | 0 < i < |ws| :: ws[i].start < ws[i - 1].end <= ws[i].end
    ensures Reread(ss, ws, parts) == Flat(held, 0, ws[|ws| - 1].end)
    decreases |ws|
  {
    var n := |ws| - 1;
    if n == 0 {
      assert Flat(parts, 0, 1) == Flat(parts, 0, 0) + parts[0];
    } else {
      var w, v := ws[n - 1], ws[n];
      assert v.start < w.end <= v.end;
      ChainPrefix(ss, cfg, ws);
      RereadIsFlat(ss, cfg, ws[..n], held, parts[..n]);
      FlatSplits(held, v.start, w.end, v.end);
      FlatLength(ss, held, v.start, w.end);
      DropPrefix(Flat(held, v.start, w.end), Flat(held, w.end, v.end));
      FlatSplits(held, 0, w.end, v.end);
    }
  }
}
