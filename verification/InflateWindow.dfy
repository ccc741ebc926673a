/** The output buffer of the inflater: a window that wraps, or one long buffer, standing for the
    whole output made so far. */
module InflateWindow {
  import opened Bits
  import opened InflateStream
  import opened InflateLogic

  /** Section 3.2.3 of RFC 1951: a match appends bytes one by one, so it may read what it wrote. */
  function Extended(h: seq<byte>, d: nat, n: nat): (e: seq<byte>)
    requires 1 <= d <= |h|
    ensures |e| == |h| + n
  {
    if n == 0 then h else
      var e := Extended(h, d, n - 1);
      e + [e[|e| - d]]
  }

  /** The appended bytes repeat the last `d` ones. */
  lemma {:induction false} ExtendedAt(h: seq<byte>, d: nat, n: nat, i: nat)
    requires 1 <= d <= |h| && i < |h| + n
    ensures i < |h| ==> Extended(h, d, n)[i] == h[i]
    ensures i >= |h| ==> 0 <= (i - |h|) % d < d && Extended(h, d, n)[i] == h[|h| - d + (i - |h|) % d]
    decreases n, i
  {
    if i >= |h| {
      DivMod(i - |h|, d);
    }
    if n > 0 {
      if i < |h| + n - 1 {
        ExtendedAt(h, d, n - 1, i);
      } else {
        ExtendedAt(h, d, n - 1, i - d);
        if i - d >= |h| {
          SubtractOne(i - |h|, d);
        } else {
          DivModUnique(i - |h|, d, 0, i - |h|);
        }
      }
    }
  }

  lemma SubtractOne(x: nat, d: nat)
    requires 0 < d <= x
    ensures x % d == (x - d) % d
  {
    var y := x - d;
    DivMod(y, d);
    assert d * (y / d + 1) == d * (y / d) + d;
    DivModUnique(x, d, y / d + 1, y % d);
  }

  /** A run of the machine through a match appends the match. */
  lemma {:induction false} CopyRuns(cfg: Config, bits: seq<bool>, m: Machine, n: nat)
    requires Sound(cfg, m) && m.ctl.Copy? && n <= m.ctl.left
    ensures 1 <= Back(cfg, m.ctl.distance) <= |m.out|
    ensures Run(cfg, bits, m, n) ==
      m.(ctl := Leaving(m.ctl, m.ctl.left - n), out := Extended(m.out, Back(cfg, m.ctl.distance), n))
  {
    hide Step, Back, Extended, Sound;
    BackInside(cfg, m);
    if n > 0 {
      CopyRuns(cfg, bits, m, n - 1);
      CopyStep(cfg, bits, Run(cfg, bits, m, n - 1));
      ExtendedMore(m.out, Back(cfg, m.ctl.distance), n);
    } else {
      ExtendedMore(m.out, Back(cfg, m.ctl.distance), 0);
    }
  }

  lemma ExtendedMore(h: seq<byte>, d: nat, n: nat)
    requires 1 <= d <= |h|
    ensures Extended(h, d, n) ==
      if n == 0 then h else Extended(h, d, n - 1) + [Extended(h, d, n - 1)[|h| + n - 1 - d]]
  {
  }

  lemma CopyStep(cfg: Config, bits: seq<bool>, m: Machine)
    requires Sound(cfg, m) && m.ctl.Copy? && m.ctl.left > 0
    ensures 1 <= Back(cfg, m.ctl.distance) <= |m.out|
    ensures Step(cfg, bits, m)
      == m.(ctl := Leaving(m.ctl, m.ctl.left - 1), out := m.out + [m.out[|m.out| - Back(cfg, m.ctl.distance)]])
  {
    BackInside(cfg, m);
  }

  // ----- remainders -----

  lemma ModApart(i: nat, j: nat, w: nat)
    requires i < j < i + w
    ensures i % w != j % w
  {
    DivMod(i, w);
    DivMod(j, w);
    var k := j / w - i / w;
    assert w * k == w * (j / w) - w * (i / w);
    if i % w == j % w {
      SmallMultiple(w, k);
    }
  }

  lemma ModAdd(x: nat, w: nat, i: nat)
    requires w > 0 && x % w + i < w
    ensures (x + i) % w == x % w + i
  {
    DivMod(x, w);
    DivModUnique(x + i, w, x / w, x % w + i);
  }

  lemma ModSucc(a: nat, b: nat, w: nat)
    requires w > 0 && a % w == b % w
    ensures (a + 1) % w == (b + 1) % w
  {
    SuccOf(a, w);
    SuccOf(b, w);
  }

  lemma SuccOf(a: nat, w: nat)
    requires w > 0
    ensures (a + 1) % w == if a % w + 1 == w then 0 else a % w + 1
  {
    DivMod(a, w);
    SuccIs(a, w, a / w, a % w);
  }

  lemma SuccIs(a: nat, w: nat, q: nat, r: nat)
    requires a == w * q + r && r < w
    ensures (a + 1) % w == if r + 1 == w then 0 else r + 1
  {
    if r + 1 == w {
      assert w * (q + 1) == w * q + w;
      DivModUnique(a + 1, w, q + 1, 0);
    } else {
      DivModUnique(a + 1, w, q, r + 1);
    }
  }

  /** Masking the difference finds the byte a distance away, for every distance. */
  lemma SourceIndex(h: nat, from: nat, distance: nat, w: nat)
    requires w > 0 && from % w == h % w && w <= h
    ensures var back := (distance - 1) % w + 1;
      1 <= back <= w && (h - back) % w == (from - distance) % w
  {
    var e := distance - 1;
    var back := e % w + 1;
    var q := e / w;
    IntDivMod(e, w);
    IntDivMod(from - distance, w);
    DivMod(h, w);
    DivMod(from, w);
    var r := (from - distance) % w;
    var k := h / w - from / w + q + (from - distance) / w;
    assert w * k == w * (h / w) - w * (from / w) + w * q + w * ((from - distance) / w);
    assert h - back == r + w * k;
    IntModUnique(h - back, w, k, r);
  }

  lemma IntDivMod(x: int, w: nat)
    requires w > 0
    ensures x == x % w + w * (x / w) && 0 <= x % w < w
  {
  }

  lemma IntModUnique(x: int, w: nat, q: int, r: nat)
    requires w > 0 && r < w && x == r + w * q
    ensures x % w == r
  {
    IntDivMod(x, w);
    var k := x / w - q;
    assert w * k == w * (x / w) - w * q;
    SmallMultiple(w, k);
  }

  // ----- the buffer -----

  class Output {
    const cfg: Config
    var buf: array<byte>
    var cur: nat
    var end: nat
    /** `dist_from_out_buf_start` */
    var fromStart: nat
    ghost var hist: seq<byte>

    /** The buffer holds the last `window` bytes of the output, each at its place modulo `window`;
        a buffer that does not wrap holds all of it. */
    static ghost predicate Holds(cfg: Config, buf: array<byte>, cur: nat, end: nat, hist: seq<byte>)
      reads buf
    {
      && cur <= end <= buf.Length
      && if cfg.wrap then
        && end == cfg.window && 0 < end <= |hist| && |hist| % end == cur % end
        && (forall j :: |hist| - end <= j < |hist| ==> buf[j % end] == hist[j])
      else cur == |hist| && buf[..cur] == hist
    }

    ghost predicate Valid()
      reads this, buf
    {
      Holds(cfg, buf, cur, end, hist)
    }

    /** The place a match reads from next. */
    ghost predicate At()
      reads this
    {
      if cfg.wrap && cfg.window > 0 then fromStart % cfg.window == |hist| % cfg.window else fromStart == |hist|
    }

    constructor (cfg: Config, buf: array<byte>, cur: nat, end: nat, ghost hist: seq<byte>)
      ensures this.cfg == cfg && this.buf == buf && this.cur == cur && this.end == end
      ensures fromStart == 0 && this.hist == hist
    {
      this.cfg := cfg;
      this.buf, this.cur, this.end := buf, cur, end;
      fromStart := 0;
      this.hist := hist;
    }

    static lemma Lengths(cfg: Config, buf: array<byte>, cur: nat, end: nat, hist: seq<byte>)
      requires Holds(cfg, buf, cur, end, hist)
      ensures cur <= end <= buf.Length && (cfg.wrap || cur == |hist|) && (cfg.wrap ==> 0 < cfg.window == end <= |hist| && |hist| % end == cur % end)
    {
    }

    /** The bytes written since the output was `before` are where the caller looks for them. */
    static lemma Produced(cfg: Config, buf: array<byte>, next: nat, cur: nat, end: nat, before: seq<byte>, hist: seq<byte>)
      requires Holds(cfg, buf, cur, end, hist) && before <= hist && |hist| - cur == |before| - next
      requires cfg.wrap ==> end > 0 && |before| % end == next % end
      ensures next <= cur <= buf.Length && hist == before + buf[next..cur]
    {
      var more, written := hist[|before|..], buf[next..cur];
      forall i | 0 <= i < |written|
        ensures more[i] == written[i]
      {
        if cfg.wrap {
          WrittenByte(cfg, buf, next, cur, end, |before|, hist, i);
        } else {
          assert buf[..cur][next + i] == buf[next + i];
        }
      }
    }

    static lemma WrittenByte(cfg: Config, buf: array<byte>, next: nat, cur: nat, end: nat, n: nat, hist: seq<byte>, i: nat)
      requires Holds(cfg, buf, cur, end, hist) && cfg.wrap && |hist| - cur == n - next && next + i < cur
      requires n % end == next % end
      ensures hist[n + i] == buf[next + i]
    {
      ModSmall(next, end);
      ModAdd(n, end, i);
      assert buf[(n + i) % end] == hist[n + i];
    }

    method Put(c: byte)
      requires Valid() && cur < end
      modifies this`cur, this`hist, buf
      ensures Valid() && hist == old(hist) + [c] && cur == old(cur) + 1
      ensures forall i :: 0 <= i < buf.Length && i != old(cur) ==> buf[i] == old(buf[i])
    {
      if cfg.wrap {
        ModSmall(cur, end);
        ModSucc(|hist|, cur, end);
        forall j | |hist| + 1 - end <= j < |hist|
          ensures j % end != cur
        {
          ModApart(j, |hist|, end);
        }
      }
      buf[cur] := c;
      cur := cur + 1;
      hist := hist + [c];
    }

    /** Where the masked index points. */
    lemma SourceByte(distance: nat)
      requires Valid() && At() && (cfg.wrap || 1 <= distance <= |hist|)
      ensures 1 <= Back(cfg, distance) <= |hist|
      ensures var i := if cfg.wrap then (fromStart - distance) % end else fromStart - distance;
        0 <= i < end && i < buf.Length && buf[i] == hist[|hist| - Back(cfg, distance)]
    {
      if cfg.wrap {
        SourceIndex(|hist|, fromStart, distance, end);
        var j := |hist| - Back(cfg, distance);
        assert buf[j % end] == hist[j];
      } else {
        assert buf[..cur][fromStart - distance] == buf[fromStart - distance];
      }
    }

    /** The byte-wise copy with masked indices, which stops when the buffer is full. */
    method CopyMasked(count: nat, distance: nat) returns (left: nat)
      requires Valid() && At() && (cfg.wrap || 1 <= distance <= |hist|)
      modifies this`cur, this`hist, this`fromStart, buf
      ensures Valid() && At() && left <= count && (left > 0 ==> cur == end)
      ensures 1 <= Back(cfg, distance) <= |old(hist)|
      ensures hist == Extended(old(hist), Back(cfg, distance), count - left)
      ensures cur == old(cur) + (count - left)
    {
      hide Back, Holds, At, Extended;
      Lengths(cfg, buf, cur, end, hist);
      SourceByte(distance);
      left := count;
      ExtendedMore(hist, Back(cfg, distance), 0);
      while left > 0 && cur < end
        invariant Valid() && At() && left <= count && cur <= end && |old(hist)| <= |hist|
        invariant hist == Extended(old(hist), Back(cfg, distance), count - left)
        invariant cur == old(cur) + (count - left)
      {
        ExtendedMore(old(hist), Back(cfg, distance), count - left + 1);
        MaskedByte(distance);
        left := left - 1;
      }
    }

    /** One byte of it. */
    method MaskedByte(distance: nat)
      requires Valid() && At() && cur < end && (cfg.wrap || 1 <= distance <= |hist|)
      modifies this`cur, this`hist, this`fromStart, buf
      ensures Valid() && At() && cur == old(cur) + 1
      ensures 1 <= Back(cfg, distance) <= |old(hist)|
      ensures hist == old(hist) + [old(hist)[|old(hist)| - Back(cfg, distance)]]
    {
      hide Back;
      SourceByte(distance);
      var i := if cfg.wrap then (fromStart - distance) % end else fromStart - distance;
      if cfg.wrap {
        ModSucc(fromStart, |hist|, end);
      }
      Put(buf[i]);
      fromStart := fromStart + 1;
    }

    /** One byte of the straight copy of a match that began after `h`. */
    method CopyOne(src: nat, distance: nat, ghost h: seq<byte>)
      requires Valid() && cur < end && src < end && (cfg.wrap || 1 <= distance <= |h|)
      requires |h| <= |hist| && src >= |hist| - |h| && Straight(|h|, distance, src - (|hist| - |h|))
      requires hist == Extended(h, Back(cfg, distance), |hist| - |h|)
      modifies this`cur, this`hist, buf
      ensures Valid() && cur == old(cur) + 1 && |hist| == |old(hist)| + 1
      ensures Straight(|h|, distance, src - (|old(hist)| - |h|))
      ensures hist == Extended(h, Back(cfg, distance), |hist| - |h|)
    {
      hide Back;
      StraightByte(src, distance, |h|);
      Put(buf[src]);
    }

    /** When the output was `first` bytes long, the match began at index `src`. */
    ghost predicate Straight(first: nat, distance: nat, src: int)
      requires Valid()
      reads this, buf
    {
      1 <= Back(cfg, distance) <= first && src == if cfg.wrap then (first - Back(cfg, distance)) % end else first - distance
    }

    lemma StraightByte(src: nat, distance: nat, first: nat)
      requires Valid() && cur < end && src < end && first <= |hist| && src >= |hist| - first
      requires Straight(first, distance, src - (|hist| - first)) && (cfg.wrap || 1 <= distance <= |hist|)
      ensures 1 <= Back(cfg, distance) <= |hist| && buf[src] == hist[|hist| - Back(cfg, distance)]
    {
      hide Holds;
      Lengths(cfg, buf, cur, end, hist);
      var i := |hist| - first;
      if cfg.wrap {
        ModAdd(first - Back(cfg, distance), end, i);
        BackInWindow(distance);
      }
      HeldByte(|hist| - Back(cfg, distance));
    }

    lemma HeldByte(j: nat)
      requires Valid() && j < |hist| && (cfg.wrap ==> |hist| - end <= j)
      ensures if cfg.wrap then j % end < buf.Length && buf[j % end] == hist[j] else j < buf.Length && buf[j] == hist[j]
    {
      assert !cfg.wrap ==> buf[..cur][j] == buf[j];
    }

    lemma BackInWindow(distance: nat)
      requires Valid() && cfg.wrap
      ensures 1 <= Back(cfg, distance) <= end
    {
      IntDivMod(distance - 1, end);
    }

    /** The copy three bytes at a time, when neither end of it passes the end of the buffer. */
    method CopyStraight(count: nat, distance: nat, start: nat)
      requires Valid() && (cfg.wrap || 1 <= distance <= |hist|)
      requires Straight(|hist|, distance, start) && cur + count <= end && start + count <= end
      modifies this`cur, this`hist, buf
      ensures Valid() && cur == old(cur) + count
      ensures 1 <= Back(cfg, distance) <= |old(hist)|
      ensures hist == Extended(old(hist), Back(cfg, distance), count)
    {
      hide Back, Extended, Valid;
      ghost var h := hist;
      ExtendedMore(h, Back(cfg, distance), 0);
      var src, left := start, count;
      while left > 2
        invariant Valid() && 0 <= left <= count && src == start + (count - left)
        invariant |hist| == |h| + (count - left) && cur == old(cur) + (count - left)
        invariant Straight(|h|, distance, start)
        invariant hist == Extended(h, Back(cfg, distance), count - left)
      {
        CopyOne(src, distance, h);
        CopyOne(src + 1, distance, h);
        CopyOne(src + 2, distance, h);
        src := src + 3;
        left := left - 3;
      }
      if left > 0 {
        CopyOne(src, distance, h);
        if left > 1 {
          CopyOne(src + 1, distance, h);
        }
      }
    }

    /** A match: what is left of it when the buffer is full. */
    method CopyMatch(count: nat, distance: nat) returns (left: nat)
      requires Valid() && (cfg.wrap || 1 <= distance <= |hist|)
      modifies this`cur, this`hist, this`fromStart, buf
      ensures Valid() && left <= count && (left > 0 ==> cur == end && At())
      ensures 1 <= Back(cfg, distance) <= |old(hist)|
      ensures hist == Extended(old(hist), Back(cfg, distance), count - left)
      ensures cur == old(cur) + (count - left)
    {
      fromStart := cur;
      if cfg.wrap {
        SourceIndex(|hist|, fromStart, distance, end);
      }
      var src := if cfg.wrap then (fromStart - distance) % end else fromStart - distance;
      if (if cur > src then cur else src) + count > end {
        left := CopyMasked(count, distance);
      } else {
        CopyStraight(count, distance, src);
        left := 0;
      }
    }
  }
}
