/**
 The replacement policy of the block cache on window addresses alone: windows in
 most-recently-used order, the number of free chunk buffers, and the log of windows read
 from the device.
 */
module WorkingSet {
  import opened Seqs
  import opened BlockModel

  datatype Lru = Lru(windows: seq<nat>, free: nat, loads: seq<nat>)

  /** A buffer is taken from the free ones or from the least recently used window. */
  function MakeRoom(l: Lru): Lru
    requires |l.windows| + l.free > 0
  {
    if l.free > 0 then l.(free := l.free - 1) else l.(windows := l.windows[..|l.windows| - 1])
  }

  /** The buffer in hand is loaded with window w and becomes the most recently used. */
  function Load(l: Lru, w: nat): Lru {
    Lru([w] + l.windows, l.free, l.loads + [w])
  }

  /** One fault-free access to window w. */
  function Access(l: Lru, w: nat): Lru
    requires |l.windows| + l.free > 0
  {
    if w in l.windows then
      l.(windows := MoveToFront(l.windows, Position(l.windows, w)))
    else
      Load(MakeRoom(l), w)
  }

  /** An access whose load, if there is one, reads from the device or not. */
  function Visit(l: Lru, w: nat, reading: bool): Lru
    requires |l.windows| + l.free > 0
  {
    if reading then Access(l, w) else Access(l, w).(loads := l.loads)
  }

  /** A second access in a row changes nothing. */
  lemma {:induction false} VisitTwice(l: Lru, w: nat, reading: bool)
    requires |l.windows| + l.free > 0
    ensures Visit(Visit(l, w, reading), w, reading) == Visit(l, w, reading)
  {
    var l' := Access(l, w);
    assert l'.windows[0] == w;
    assert Position(l'.windows, w) == 0;
    assert MoveToFront(l'.windows, 0) == l'.windows;
  }

  function AccessAll(l: Lru, ws: seq<nat>): (r: Lru)
    requires |l.windows| + l.free > 0
    ensures |r.windows| + r.free == |l.windows| + l.free
    decreases |ws|
  {
    if ws == [] then l else Access(AccessAll(l, ws[..|ws| - 1]), ws[|ws| - 1])
  }

  lemma {:induction false} AccessAllAppend(l: Lru, xs: seq<nat>, ys: seq<nat>)
    requires |l.windows| + l.free > 0
    ensures AccessAll(l, xs + ys) == AccessAll(AccessAll(l, xs), ys)
    decreases |ys|
  {
    if ys == [] {
      assert xs + ys == xs;
    } else {
      var last := |ys| - 1;
      assert (xs + ys)[..|xs + ys| - 1] == xs + ys[..last];
      AccessAllAppend(l, xs, ys[..last]);
    }
  }

  function ToSet(s: seq<nat>): set<nat> {
    set w | w in s
  }

  /** The windows touched so far occupy the front of the list, and each was loaded at most once. */
  predicate Tracked(l: Lru, base: nat, touched: set<nat>, capacity: nat) {
    && Distinct(l.windows)
    && |l.windows| + l.free == capacity
    && (forall i :: 0 <= i < |l.windows| ==> (l.windows[i] in touched <==> i < |touched|))
    && (forall w :: w in touched ==> w in l.windows)
    && base <= |l.loads|
    && (forall i :: base <= i < |l.loads| ==> l.loads[i] in touched)
    && (forall i, j :: base <= i < j < |l.loads| ==> l.loads[i] != l.loads[j])
  }

  lemma {:induction false} FrontIs<T>(s: seq<T>, i: nat)
    requires i < |s|
    ensures forall j :: 0 <= j < |s| ==> MoveToFront(s, i)[j] == s[FrontSource(i, j)]
  {
  }

  lemma {:induction false} TouchFront<T>(s: seq<T>, i: nat)
    requires Distinct(s) && i < |s|
    ensures Distinct(MoveToFront(s, i))
    ensures forall j :: 0 <= j < |s| ==> MoveToFront(s, i)[j] == s[FrontSource(i, j)]
    ensures forall w :: w in s <==> w in MoveToFront(s, i)
  {
    var r := MoveToFront(s, i);
    forall w | w in s
      ensures w in r
    {
      var m :| 0 <= m < |s| && s[m] == w;
      assert r[if m == i then 0 else if m < i then m + 1 else m] == w;
    }
  }

  lemma {:induction false} AccessTouched(l: Lru, base: nat, touched: set<nat>, capacity: nat, w: nat)
    requires Tracked(l, base, touched, capacity) && capacity > 0 && w in touched
    ensures Tracked(Access(l, w), base, touched, capacity)
  {
    TouchFront(l.windows, Position(l.windows, w));
  }

  lemma {:induction false} RoomTracked(l: Lru, base: nat, touched: set<nat>, capacity: nat)
    requires Tracked(l, base, touched, capacity) && |touched| < capacity
    ensures Tracked(MakeRoom(l), base, touched, capacity - 1)
  {
    forall w | w in touched
      ensures w in MakeRoom(l).windows
    {
      var i :| 0 <= i < |l.windows| && l.windows[i] == w;
      assert MakeRoom(l).windows[i] == w;
    }
  }

  lemma {:induction false} LoadTracked(l: Lru, base: nat, touched: set<nat>, capacity: nat, w: nat)
    requires Tracked(l, base, touched, capacity) && w !in touched && w !in l.windows
    ensures Tracked(Load(l, w), base, touched + {w}, capacity + 1)
  {
    assert forall x :: x in l.windows ==> x in Load(l, w).windows;
  }

  lemma {:induction false} AccessNew(l: Lru, base: nat, touched: set<nat>, capacity: nat, w: nat)
    requires Tracked(l, base, touched, capacity) && w !in touched && |touched| < capacity
    ensures Tracked(Access(l, w), base, touched + {w}, capacity)
  {
    if w in l.windows {
      HitTracked(l, base, touched, capacity, w);
    } else {
      RoomTracked(l, base, touched, capacity);
      hide Tracked, Load;
      LoadTracked(MakeRoom(l), base, touched, capacity - 1, w);
    }
  }

  lemma {:induction false} HitTracked(l: Lru, base: nat, touched: set<nat>, capacity: nat, w: nat)
    requires Tracked(l, base, touched, capacity) && w !in touched && w in l.windows
    ensures Tracked(Access(l, w), base, touched + {w}, capacity)
  {
    var i := Position(l.windows, w);
    TouchFront(l.windows, i);
    hide Distinct;
    var r := MoveToFront(l.windows, i);
    forall j | 0 <= j < |r|
      ensures r[j] in touched + {w} <==> j < |touched| + 1
    {
      assert r[j] == l.windows[FrontSource(i, j)];
    }
  }

  lemma {:induction false} RunTracked(l: Lru, ws: seq<nat>, allowed: set<nat>, capacity: nat)
    returns (touched: set<nat>)
    requires Distinct(l.windows) && |l.windows| + l.free == capacity && capacity > 0
    requires ToSet(ws) <= allowed && |allowed| <= capacity
    ensures touched <= allowed && Tracked(AccessAll(l, ws), |l.loads|, touched, capacity)
    decreases |ws|
  {
    if ws == [] {
      touched := {};
    } else {
      var last := |ws| - 1;
      var w := ws[last];
      assert ToSet(ws[..last]) <= allowed by {
        forall x | x in ToSet(ws[..last])
          ensures x in allowed
        {
          assert x in ToSet(ws);
        }
      }
      touched := RunTracked(l, ws[..last], allowed, capacity);
      var m := AccessAll(l, ws[..last]);
      assert w in ToSet(ws);
      if w in touched {
        AccessTouched(m, |l.loads|, touched, capacity, w);
      } else {
        SubsetSize(touched + {w}, allowed);
        AccessNew(m, |l.loads|, touched, capacity, w);
        touched := touched + {w};
      }
    }
  }

  lemma {:induction false} SubsetSize<T>(a: set<T>, b: set<T>)
    requires a <= b
    ensures |a| <= |b|
  {
    assert |b - a| + |a| == |b| by {
      assert (b - a) + a == b;
    }
  }

  /**
   The working-set bound: accesses confined to at most as many windows as there are chunk
   buffers read no window twice, whatever the cache held at the start.
   */
  lemma {:induction false} WorkingSetBound(l: Lru, ws: seq<nat>, allowed: set<nat>, capacity: nat)
    requires Distinct(l.windows) && |l.windows| + l.free == capacity && capacity > 0
    requires ToSet(ws) <= allowed && |allowed| <= capacity
    ensures |l.loads| <= |AccessAll(l, ws).loads|
    ensures Distinct(AccessAll(l, ws).loads[|l.loads|..])
    ensures forall w :: w in AccessAll(l, ws).loads[|l.loads|..] ==> w in allowed
  {
    var touched := RunTracked(l, ws, allowed, capacity);
  }

  // ---- how long a window stays ------------------------------------------------------------------------

  /** The windows of others stand in front of w. */
  predicate Front(s: seq<nat>, w: nat, others: set<nat>) {
    |others| < |s| && s[|others|] == w && ToSet(s[..|others|]) == others
  }

  /** Since window w was at the head, exactly the windows of others have been visited. */
  predicate Since(l: Lru, w: nat, others: set<nat>, capacity: nat) {
    && Distinct(l.windows) && |l.windows| + l.free == capacity
    && if |others| < capacity then Front(l.windows, w, others) else w !in l.windows
  }

  lemma {:induction false} MissIs(l: Lru, x: nat)
    requires Distinct(l.windows) && x !in l.windows && |l.windows| + l.free > 0
    ensures Distinct(Access(l, x).windows) && |Access(l, x).windows| + Access(l, x).free == |l.windows| + l.free
    ensures Access(l, x).windows == [x] + if l.free > 0 then l.windows else l.windows[..|l.windows| - 1]
  {
  }

  lemma {:induction false} HitIs(l: Lru, x: nat)
    requires Distinct(l.windows) && x in l.windows
    ensures Distinct(Access(l, x).windows) && |Access(l, x).windows| + Access(l, x).free == |l.windows| + l.free
    ensures Access(l, x).windows == MoveToFront(l.windows, Position(l.windows, x))
  {
    TouchFront(l.windows, Position(l.windows, x));
  }

  /** Once gone, a window stays gone until it is visited. */
  lemma {:induction false} StaysGone(l: Lru, w: nat, x: nat)
    requires Distinct(l.windows) && w !in l.windows && x != w && |l.windows| + l.free > 0
    ensures w !in Access(l, x).windows
  {
    if x in l.windows {
      TouchFront(l.windows, Position(l.windows, x));
    } else {
      MissIs(l, x);
    }
  }

  /** Moving a window that is in front of w. */
  lemma {:induction false} FrontHit(s: seq<nat>, w: nat, others: set<nat>, k: nat)
    requires Front(s, w, others) && k < |others|
    ensures Front(MoveToFront(s, k), w, others)
  {
    var n, r := |others|, MoveToFront(s, k);
    assert r[..n] == [s[k]] + s[..k] + s[k + 1..n];
    assert s[..n] == s[..k] + [s[k]] + s[k + 1..n];
    assert ToSet(r[..n]) == ToSet(s[..n]);
  }

  /** Moving a window that is behind w. */
  lemma {:induction false} FrontPush(s: seq<nat>, w: nat, others: set<nat>, k: nat)
    requires Front(s, w, others) && |others| < k < |s| && s[k] !in others
    ensures Front(MoveToFront(s, k), w, others + {s[k]})
  {
    var n, r := |others|, MoveToFront(s, k);
    assert r[..n + 1] == [s[k]] + s[..n];
    assert ToSet(r[..n + 1]) == others + {s[k]};
  }

  /** Putting a new window in front of some of the list. */
  lemma {:induction false} FrontNew(s: seq<nat>, w: nat, others: set<nat>, keep: nat, x: nat)
    requires Front(s, w, others) && |others| < keep <= |s| && x !in others
    ensures Front([x] + s[..keep], w, others + {x})
  {
    var n, r := |others|, [x] + s[..keep];
    assert r[..n + 1] == [x] + s[..n];
    assert ToSet(r[..n + 1]) == others + {x};
  }

  lemma {:induction false} FrontIn(s: seq<nat>, w: nat, others: set<nat>)
    requires Front(s, w, others)
    ensures forall i :: 0 <= i < |others| ==> s[i] in others
  {
    var n := |others|;
    assert forall i :: 0 <= i < n ==> s[..n][i] in ToSet(s[..n]);
  }

  lemma {:induction false} SinceKnown(l: Lru, w: nat, others: set<nat>, capacity: nat, x: nat)
    requires Since(l, w, others, capacity) && x != w && x in others && capacity > 0
    ensures Since(Access(l, x), w, others, capacity)
  {
    if |others| < capacity {
      var k := Position(l.windows, x);
      assert x in l.windows[..|others|];
      var m :| 0 <= m < |others| && l.windows[m] == x;
      assert k == m;
      FrontHit(l.windows, w, others, k);
      hide Front;
      HitIs(l, x);
    } else {
      StaysGone(l, w, x);
      if x in l.windows { HitIs(l, x); } else { MissIs(l, x); }
    }
  }

  lemma {:induction false} SinceNew(l: Lru, w: nat, others: set<nat>, capacity: nat, x: nat)
    requires Since(l, w, others, capacity) && x != w && x !in others && capacity > 0
    ensures Since(Access(l, x), w, others + {x}, capacity)
  {
    hide Access, MoveToFront, ToSet;
    var n, s := |others|, l.windows;
    if x in s { HitIs(l, x); } else { MissIs(l, x); }
    if n >= capacity {
      StaysGone(l, w, x);
      return;
    }
    FrontIn(s, w, others);
    if x in s {
      FrontPush(s, w, others, Position(s, x));
    } else if l.free > 0 {
      assert s[..|s|] == s;
      FrontNew(s, w, others, |s|, x);
    } else if n + 1 < |s| {
      FrontNew(s, w, others, |s| - 1, x);
    } else {
      assert forall i :: 0 <= i < n ==> s[i] != w;
    }
  }

  /** A window stays cached exactly as long as fewer other windows than there are buffers have been visited since. */
  lemma {:induction false} StaysExactly(l: Lru, w: nat, ws: seq<nat>, capacity: nat)
    requires Distinct(l.windows) && |l.windows| + l.free == capacity && |l.windows| > 0 && l.windows[0] == w && w !in ws
    ensures Since(AccessAll(l, ws), w, ToSet(ws), capacity)
    ensures w in AccessAll(l, ws).windows <==> |ToSet(ws)| < capacity
    decreases |ws|
  {
    if ws == [] {
      assert ToSet(ws) == {};
    } else {
      var n := |ws| - 1;
      StaysExactly(l, w, ws[..n], capacity);
      hide Since, Access;
      var before, x := ToSet(ws[..n]), ws[n];
      assert ToSet(ws) == before + {x};
      if x in before {
        assert before + {x} == before;
        SinceKnown(AccessAll(l, ws[..n]), w, before, capacity, x);
      } else {
        SinceNew(AccessAll(l, ws[..n]), w, before, capacity, x);
      }
    }
    SinceStays(AccessAll(l, ws), w, ToSet(ws), capacity);
  }

  lemma {:induction false} SinceStays(l: Lru, w: nat, others: set<nat>, capacity: nat)
    requires Since(l, w, others, capacity)
    ensures w in l.windows <==> |others| < capacity
  {
  }

  function Iota(n: nat): seq<nat> {
    seq(n, i => i)
  }

  function Countdown(n: nat): seq<nat> {
    seq(n, i requires 0 <= i < n => n - 1 - i)
  }

  lemma {:induction false} FillStep(capacity: nat, k: nat)
    requires k < capacity
    ensures Access(Lru(Countdown(k), capacity - k, Iota(k)), k) == Lru(Countdown(k + 1), capacity - k - 1, Iota(k + 1))
  {
    assert Iota(k) + [k] == Iota(k + 1);
    assert [k] + Countdown(k) == Countdown(k + 1);
    assert k !in Countdown(k);
  }

  lemma {:induction false} FillUp(capacity: nat, k: nat)
    requires 0 < capacity && k <= capacity
    ensures AccessAll(Lru([], capacity, []), Iota(k)) == Lru(Countdown(k), capacity - k, Iota(k))
  {
    if k > 0 {
      FillUp(capacity, k - 1);
      FillStep(capacity, k - 1);
      assert Iota(k)[..k - 1] == Iota(k - 1);
    } else {
      assert Countdown(0) == [] && Iota(0) == [];
    }
  }

  /** The bound is tight: one window more than there are buffers, visited in a cycle, is read again. */
  lemma {:induction false} BoundIsTight(capacity: nat)
    requires 0 < capacity
    ensures !Distinct(AccessAll(Lru([], capacity, []), Iota(capacity + 1) + [0]).loads)
  {
    var l, n := Lru([], capacity, []), capacity;
    FillUp(n, n);
    AccessLast(l, Iota(n), n);
    assert Iota(n) + [n] == Iota(n + 1);
    Overfull(n);
    AccessLast(l, Iota(n + 1), 0);
    var loads := AccessAll(l, Iota(n + 1) + [0]).loads;
    assert loads == Iota(n + 1) + [0];
    assert loads[0] == loads[n + 1];
  }

  /** One more window pushes window 0 out, and visiting it again loads it again. */
  lemma {:induction false} Overfull(n: nat)
    requires 0 < n
    ensures var over := Access(Lru(Countdown(n), 0, Iota(n)), n);
            |over.windows| + over.free > 0 && over.loads == Iota(n + 1) && Access(over, 0).loads == Iota(n + 1) + [0]
  {
    assert n !in Countdown(n);
    assert Iota(n) + [n] == Iota(n + 1);
    var over := Access(Lru(Countdown(n), 0, Iota(n)), n);
    assert 0 !in over.windows;
  }

  /** The windows of n consecutive blocks. */
  function BlockWindows(g: Geometry, first: nat, n: nat): (r: seq<nat>)
    requires g.Ok()
    ensures |r| == n
  {
    if n == 0 then [] else BlockWindows(g, first, n - 1) + [Window(g, first + n - 1)]
  }

  lemma {:induction false} AccessLast(l: Lru, ws: seq<nat>, w: nat)
    requires |l.windows| + l.free > 0
    ensures AccessAll(l, ws + [w]) == Access(AccessAll(l, ws), w)
  {
    assert (ws + [w])[..|ws|] == ws;
  }
}
