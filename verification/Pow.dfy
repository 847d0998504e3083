/** Work and difficulty (src/chain/pow.cpp). */
module Pow {
  import opened Common
  import opened Uint256
  import opened Compact

  const FACTOR := 4
  const SDA_BLOCKS := 6
  const SDA_SPAN := 600

  /** Integer division of C, towards zero. */
  function TruncDiv(a: int, b: int): int
    requires b > 0
  {
    if a >= 0 then a / b else -((-a) / b)
  }

  // ----- proofs

  /** `p` is the work that target `t` stands for: the integer part of 2^256 / (t + 1). */
  ghost predicate IsProof(t: nat, p: nat) {
    IsQuotient(W, t + 1, p)
  }

  /** The way around 2^256, which does not fit: ~t / (t + 1) + 1. */
  lemma ComplementTrick(t: nat, q: nat)
    requires t < W && IsQuotient(W - 1 - t, t + 1, q)
    ensures IsProof(t, q + 1)
  {
    assert (q + 1) * (t + 1) == q * (t + 1) + (t + 1);
  }

  lemma SmallModulo(x: nat)
    requires x < W
    ensures x % W == x
  {
  }

  /** GetBlockProof: adding one to the target never wraps, so it never divides by zero. */
  method GetBlockProof(bits: nat) returns (p: nat)
    ensures var d := SetCompact(bits);
            if d.negative || d.overflow || d.value == 0 then p == 0 else IsProof(d.value, p)
  {
    hide *;
    var d := SetCompact(bits);
    DecodedIsNotFull(bits);
    if d.negative || d.overflow || d.value == 0 {
      return 0;
    }
    SmallModulo(d.value + 1);
    var q := Divide(W - 1 - d.value, (d.value + 1) % W);
    ComplementTrick(d.value, q.value);
    return q.value + 1;
  }

  /** The target computed from work `w` is -w / w, modulo 2^256. */
  ghost predicate IsTarget(w: nat, target: nat) {
    0 < w < W && IsQuotient(W - w, w, target)
  }

  lemma TimesLess(x: nat, y: nat, b: nat)
    requires x * b < y * b
    ensures x < y
  {
    if x >= y {
      TimesGrows(y, x, b);
    }
  }

  /** It is the largest target whose proof is at least `w`. */
  lemma TargetIsLargest(w: nat, target: nat, t: nat, p: nat)
    requires IsTarget(w, target) && IsProof(t, p)
    ensures p >= w <==> t <= target
  {
    hide IsTarget, IsProof;
    TargetTimes(w, target);
    ProofTimes(t, p);
    if t <= target {
      TimesGrows(t + 1, target + 1, w);
      assert (t + 1) * w == w * (t + 1);
      TimesLess(w, p + 1, t + 1);
    } else {
      TimesGrows(target + 2, t + 1, w);
      assert (t + 1) * w == w * (t + 1);
      TimesLess(p, w, t + 1);
    }
  }

  lemma TargetTimes(w: nat, target: nat)
    requires IsTarget(w, target)
    ensures (target + 1) * w <= W < (target + 2) * w
  {
    assert (target + 1) * w == target * w + w && (target + 2) * w == target * w + w + w;
  }

  lemma ProofTimes(t: nat, p: nat)
    requires IsProof(t, p)
    ensures p * (t + 1) <= W < (p + 1) * (t + 1)
  {
    assert (p + 1) * (t + 1) == p * (t + 1) + (t + 1);
  }

  // ----- the time that the last blocks took

  /** GetSDAadjustedTime: extra time when the last six blocks were slow. */
  function SdaAdjustedTime(height: nat, time: int, range: nat, lastSix: int): int
    requires range > 0
  {
    var average := TruncDiv(lastSix, SDA_BLOCKS);
    if height < SDA_BLOCKS * 4 || average < SDA_SPAN || TruncDiv(time, range) >= average then 0
    else Share(average, time)
  }

  /** The part of the window's time that is added: right shifts, which round down. */
  function Share(average: int, time: int): int {
    if average > SDA_SPAN * 6 then time / 2
    else if average > SDA_SPAN * 3 then time / 4
    else time / 8
  }

  /** The slower the last six blocks, the more time is added, up to half of the time of the
      window, also when that is negative; none when they took less than ten minutes each. */
  lemma SdaGrows(height: nat, time: int, range: nat, a: int, b: int)
    requires range > 0 && a <= b
    ensures var x, y := SdaAdjustedTime(height, time, range, a), SdaAdjustedTime(height, time, range, b);
            if time >= 0 then 0 <= x <= y <= time / 2 else time / 2 <= y <= x <= 0
    ensures a < SDA_BLOCKS * SDA_SPAN ==> SdaAdjustedTime(height, time, range, a) == 0
  {
    AverageGrows(a, b);
  }

  lemma AverageGrows(a: int, b: int)
    requires a <= b
    ensures TruncDiv(a, SDA_BLOCKS) <= TruncDiv(b, SDA_BLOCKS)
    ensures a < SDA_BLOCKS * SDA_SPAN ==> TruncDiv(a, SDA_BLOCKS) < SDA_SPAN
  {
  }

  /** Without rounding: time is added from height 24 on, when the last six blocks took an hour or
      more and the window is faster than they were; an eighth of the time of the window, from
      10806 seconds on a quarter, and from 21606 on half of it. */
  lemma SdaShares(height: nat, time: int, range: nat, lastSix: int)
    requires range > 0
    ensures var x := SdaAdjustedTime(height, time, range, lastSix);
            if height < 24 || lastSix < 3600 || time >= lastSix / 6 * range then x == 0
            else if lastSix < 10806 then 8 * x <= time < 8 * x + 8
            else if lastSix < 21606 then 4 * x <= time < 4 * x + 4
            else 2 * x <= time < 2 * x + 2
  {
    if lastSix >= 3600 && time >= 0 {
      FasterWindow(time, range, lastSix / 6);
    } else if lastSix >= 3600 {
      TimesGrows(0, lastSix / 6, range);
      NegativeQuotient(time, range);
    }
  }

  lemma FasterWindow(time: nat, range: nat, average: nat)
    requires range > 0
    ensures time / range >= average <==> time >= average * range
  {
    QuotientIs(time, range);
    if time / range >= average {
      TimesGrows(average, time / range, range);
    } else {
      TimesGrows(time / range + 1, average, range);
    }
  }

  lemma NegativeQuotient(time: int, range: nat)
    requires range > 0 && time < 0
    ensures TruncDiv(time, range) <= 0
  {
  }

  /** The clamps of GetTargetPow. `full` is the time that the blocks should take, `least` the
      lower bound. */
  function Clamped(time: int, full: nat, least: nat, slow: bool): int {
    var most := full * FACTOR;
    if slow then (if time > 2 * most then 2 * most else if time < least then least else time)
    else if time > most + most / 2 then most + most / 2
    else if time > most + most / 4 then most + most / 4
    else if time > most then most
    else if time < least then least
    else time
  }

  /** More time never makes less. */
  lemma ClampedGrows(a: int, b: int, full: nat, least: nat, slow: bool)
    requires a <= b && least <= full
    ensures Clamped(a, full, least, slow) <= Clamped(b, full, least, slow)
    ensures least <= Clamped(a, full, least, slow) <= (if slow then 8 else 6) * full
  {
  }

  /** Which times stay, and which are cut to a multiple of the full time. */
  lemma ClampedSteps(time: int, full: nat, least: nat, slow: bool)
    requires least <= full
    ensures var span := Clamped(time, full, least, slow);
            && (least <= time <= 4 * full ==> span == time)
            && (time < least ==> span == least)
            && (4 * full < time <= 5 * full && !slow ==> span == 4 * full)
            && (5 * full < time <= 6 * full && !slow ==> span == 5 * full)
            && (time > 6 * full && !slow ==> span == 6 * full)
            && (4 * full < time <= 8 * full && slow ==> span == time)
            && (time > 8 * full && slow ==> span == 8 * full)
  {
    var most := full * FACTOR;
    assert most == 4 * full && most / 2 == 2 * full && most / 4 == full;
  }

  /** The time that the work of a window of blocks is divided by. */
  function Timespan(time: int, adjust: int, range: nat, spacing: nat): int {
    Clamped(time + adjust, range * spacing, range / FACTOR * spacing, adjust > 0)
  }

  lemma TimespanBounds(time: int, adjust: int, range: nat, spacing: nat)
    ensures range / FACTOR * spacing <= Timespan(time, adjust, range, spacing)
    ensures Timespan(time, adjust, range, spacing) <= (if adjust > 0 then 8 else 6) * (range * spacing)
  {
    TimesGrows(range / FACTOR, range, spacing);
    ClampedGrows(time + adjust, time + adjust, range * spacing, range / FACTOR * spacing, adjust > 0);
  }

  /** The time that is used at a height, adjusted and clamped. */
  function SpanAt(height: nat, time: int, range: nat, spacing: nat, lastSix: int): int
    requires range > 0
  {
    Timespan(time, SdaAdjustedTime(height, time, range, lastSix), range, spacing)
  }

  /** When the last six blocks were slower, the time never gets shorter. */
  lemma TimespanGrows(height: nat, time: int, range: nat, spacing: nat, a: int, b: int)
    requires range > 0 && a <= b
    ensures SpanAt(height, time, range, spacing, a) <= SpanAt(height, time, range, spacing, b)
  {
    hide SdaAdjustedTime, Clamped;
    SdaGrows(height, time, range, a, b);
    var x, y := SdaAdjustedTime(height, time, range, a), SdaAdjustedTime(height, time, range, b);
    TimesGrows(range / FACTOR, range, spacing);
    if time >= 0 {
      ClampedOrder(time + x, time + y, range * spacing, range / FACTOR * spacing, x > 0, y > 0);
    } else {
      NegativeIsLeast(height, time, range, spacing, a);
      NegativeIsLeast(height, time, range, spacing, b);
    }
  }

  /** A window that goes back in time counts as the lower bound. */
  lemma NegativeIsLeast(height: nat, time: int, range: nat, spacing: nat, lastSix: int)
    requires range > 0 && time < 0
    ensures SpanAt(height, time, range, spacing, lastSix) == range / FACTOR * spacing
  {
    hide SdaAdjustedTime;
    SdaGrows(height, time, range, lastSix, lastSix);
    TimesGrows(range / FACTOR, range, spacing);
  }

  /** But it can get shorter when the whole window took longer: one second more can take away
      the adjustment, which depends on the last blocks being slower than the window. */
  lemma MoreTimeCanGiveLess()
    ensures var range, spacing, time, lastSix := 60, 180, 239_999, 24_000;
            SpanAt(1000, time + 1, range, spacing, lastSix) < SpanAt(1000, time, range, spacing, lastSix)
  {
    assert TruncDiv(24_000, SDA_BLOCKS) == 4000;
    assert TruncDiv(240_000, 60) == 4000 && TruncDiv(239_999, 60) == 3999;
  }

  /** While the window stays faster than the last blocks, or when there was no adjustment
      before, more time gives no less. */
  lemma TimespanGrowsWithTime(height: nat, a: int, b: int, range: nat, spacing: nat, lastSix: int)
    requires range > 0 && a <= b
    requires TruncDiv(b, range) < TruncDiv(lastSix, SDA_BLOCKS) || SdaAdjustedTime(height, a, range, lastSix) == 0
    ensures SpanAt(height, a, range, spacing, lastSix) <= SpanAt(height, b, range, spacing, lastSix)
  {
    hide TruncDiv, Clamped, SdaAdjustedTime;
    var x, y := SdaAdjustedTime(height, a, range, lastSix), SdaAdjustedTime(height, b, range, lastSix);
    if a < 0 {
      NegativeIsLeast(height, a, range, spacing, lastSix);
      TimespanBounds(b, y, range, spacing);
    } else {
      AdjustGrows(height, a, b, range, lastSix);
      TimesGrows(range / FACTOR, range, spacing);
      ClampedOrder(a + x, b + y, range * spacing, range / FACTOR * spacing, x > 0, y > 0);
    }
  }

  lemma AdjustGrows(height: nat, a: nat, b: nat, range: nat, lastSix: int)
    requires range > 0 && a <= b
    requires TruncDiv(b, range) < TruncDiv(lastSix, SDA_BLOCKS) || SdaAdjustedTime(height, a, range, lastSix) == 0
    ensures 0 <= SdaAdjustedTime(height, a, range, lastSix) <= SdaAdjustedTime(height, b, range, lastSix)
  {
    hide TruncDiv;
  }

  lemma ClampedOrder(a: int, b: int, full: nat, least: nat, slowA: bool, slowB: bool)
    requires a <= b && least <= full && (slowA ==> slowB)
    ensures Clamped(a, full, least, slowA) <= Clamped(b, full, least, slowB)
  {
  }

  /** The last second at which a window is faster than the last blocks, and so adjusted. */
  function EdgeOf(average: int, range: nat): int {
    average * range - 1
  }

  /** The window of `b` seconds, not adjusted, uses as much time as that of the edge, adjusted. */
  predicate MakesUp(average: int, b: int, range: nat, spacing: nat) {
    var edge := EdgeOf(average, range);
    Clamped(edge + Share(average, edge), range * spacing, range / FACTOR * spacing, true)
    <= Clamped(b, range * spacing, range / FACTOR * spacing, false)
  }

  /** No shorter window uses more time than one of `b` seconds, if and only if the adjustment is
      off at this height, the last blocks were fast, the window of `b` seconds is still faster
      than they were, or it makes up for the adjustment that ends at the edge. */
  lemma MoreTimeGivesNoLessIff(height: nat, b: int, range: nat, spacing: nat, lastSix: int)
    requires range > 0
    ensures var average := TruncDiv(lastSix, SDA_BLOCKS);
            (forall a: int :: a <= b ==>
               SpanAt(height, a, range, spacing, lastSix) <= SpanAt(height, b, range, spacing, lastSix))
            <==>
            (height < SDA_BLOCKS * 4 || average < SDA_SPAN || TruncDiv(b, range) < average
             || MakesUp(average, b, range, spacing))
  {
    hide SpanAt, MakesUp;
    var average := TruncDiv(lastSix, SDA_BLOCKS);
    if height >= SDA_BLOCKS * 4 && average >= SDA_SPAN && TruncDiv(b, range) >= average {
      assert b >= 0;
      Edge(average, range, b);
      AtTheEdge(height, b, range, spacing, lastSix);
      if MakesUp(average, b, range, spacing) {
        forall a: int | a <= b
          ensures SpanAt(height, a, range, spacing, lastSix) <= SpanAt(height, b, range, spacing, lastSix)
        {
          UpToEdge(height, a, b, range, spacing, lastSix);
        }
      }
    } else {
      forall a: int | a <= b
        ensures SpanAt(height, a, range, spacing, lastSix) <= SpanAt(height, b, range, spacing, lastSix)
      {
        TimespanGrowsWithTime(height, a, b, range, spacing, lastSix);
      }
    }
  }

  lemma AtTheEdge(height: nat, b: nat, range: nat, spacing: nat, lastSix: int)
    requires range > 0 && height >= SDA_BLOCKS * 4 && TruncDiv(lastSix, SDA_BLOCKS) >= SDA_SPAN
    requires b / range >= TruncDiv(lastSix, SDA_BLOCKS)
    ensures var average := TruncDiv(lastSix, SDA_BLOCKS);
            MakesUp(average, b, range, spacing) <==>
              SpanAt(height, EdgeOf(average, range), range, spacing, lastSix)
              <= SpanAt(height, b, range, spacing, lastSix)
  {
    hide Clamped;
    var average := TruncDiv(lastSix, SDA_BLOCKS);
    Edge(average, range, b);
    TimesGrows(1, range, average);
    var edge := EdgeOf(average, range);
    assert Share(average, edge) > 0;
    assert SdaAdjustedTime(height, edge, range, lastSix) == Share(average, edge);
    assert SdaAdjustedTime(height, b, range, lastSix) == 0;
  }

  /** The last second at which a window is faster than the last blocks. */
  lemma Edge(average: nat, range: nat, b: nat)
    requires range > 0 && average > 0 && b / range >= average
    ensures 0 <= average * range - 1 < b && (average * range - 1) / range == average - 1
  {
    TimesGrows(1, average, range);
    TimesGrows(average, b / range, range);
    QuotientIs(b, range);
    var e: nat := average * range - 1;
    assert (average - 1) * range + range == average * range;
    QuotientIs(e, range);
    QuotientIsUnique(e, range, average - 1, e / range);
  }

  lemma BelowEdge(average: nat, range: nat, a: nat)
    requires range > 0 && a / range < average
    ensures a <= average * range - 1
  {
    QuotientIs(a, range);
    TimesGrows(a / range + 1, average, range);
  }

  lemma UpToEdge(height: nat, a: int, b: nat, range: nat, spacing: nat, lastSix: int)
    requires range > 0 && a <= b && TruncDiv(lastSix, SDA_BLOCKS) >= SDA_SPAN
    requires b / range >= TruncDiv(lastSix, SDA_BLOCKS)
    requires SpanAt(height, EdgeOf(TruncDiv(lastSix, SDA_BLOCKS), range), range, spacing, lastSix)
          <= SpanAt(height, b, range, spacing, lastSix)
    ensures SpanAt(height, a, range, spacing, lastSix) <= SpanAt(height, b, range, spacing, lastSix)
  {
    hide SpanAt;
    var average := TruncDiv(lastSix, SDA_BLOCKS);
    Edge(average, range, b);
    if a < 0 {
      TimespanGrowsWithTime(height, a, EdgeOf(average, range), range, spacing, lastSix);
    } else if a / range >= average {
      TimespanGrowsWithTime(height, a, b, range, spacing, lastSix);
    } else {
      BelowEdge(average, range, a);
      TimespanGrowsWithTime(height, a, EdgeOf(average, range), range, spacing, lastSix);
    }
  }

  /** The work asked for: that of the window, scaled to one block. */
  function WorkAsked(work: nat, span: int, spacing: nat): nat {
    if span <= 0 then 0 else work * spacing % W / span
  }

  /** -w / w, modulo 2^256. */
  function TargetFor(w: nat): nat {
    if w == 0 then 0 else (W - w % W) % W / w
  }

  /** GetTargetPow, from the work and the times of a window of `range` blocks and the time of
      the last six. None stands for a division by zero. */
  method GetTargetPow(work: nat, time: int, height: nat, lastSix: int, range: nat, spacing: nat)
      returns (target: Option<nat>)
    requires range > 0
    ensures var span := SpanAt(height, time, range, spacing, lastSix);
            var w := WorkAsked(work, span, spacing);
            target == if w == 0 then None else Some(TargetFor(w))
  {
    hide IsQuotient, Clamped, SdaAdjustedTime, WorkAsked, TargetFor;
    var scaled := work * spacing % W;
    var adjust := SdaAdjustedTime(height, time, range, lastSix);
    var span := time + adjust;
    var sdaFactor := if adjust > 0 then 2 else 1;
    ghost var full, least := range * spacing, range / FACTOR * spacing;
    Reorder(range, spacing, sdaFactor);
    ClampedIs(span, full, least, adjust > 0);
    if span > range * FACTOR * sdaFactor * spacing {
      var most := range * FACTOR * spacing;
      if sdaFactor == 1 {
        if span > most + most / 2 {
          span := most + most / 2;
        } else if span > most + most / 4 {
          span := most + most / 4;
        } else {
          span := most;
        }
      } else {
        span := range * FACTOR * sdaFactor * spacing;
      }
    } else if span < range / FACTOR * spacing {
      span := range / FACTOR * spacing;
    }
    TimespanBounds(time, adjust, range, spacing);
    var quotient := Divide(scaled, span);
    if quotient == None {
      WorkOfNoTime(work, spacing);
      return None;
    }
    var w := quotient.value;
    WorkAskedIs(work, span, spacing, w);
    target := Divide((W - w) % W, w);
    if target.Some? {
      TargetForIs(w, target.value);
    }
  }

  lemma WorkOfNoTime(work: nat, spacing: nat)
    ensures WorkAsked(work, 0, spacing) == 0
  {
  }

  lemma QuotientIs(n: nat, b: nat)
    requires b > 0
    ensures IsQuotient(n, b, n / b)
  {
  }

  lemma WorkAskedIs(work: nat, span: nat, spacing: nat, w: nat)
    requires span > 0 && IsQuotient(work * spacing % W, span, w)
    ensures w == WorkAsked(work, span, spacing) && w < W
  {
    hide IsQuotient;
    var scaled := work * spacing % W;
    QuotientIs(scaled, span);
    QuotientIsUnique(scaled, span, w, scaled / span);
    QuotientIsSmaller(scaled, span, w);
  }

  lemma TargetForIs(w: nat, target: nat)
    requires 0 < w < W && IsQuotient((W - w) % W, w, target)
    ensures target == TargetFor(w)
  {
    hide IsQuotient;
    SmallModulo(w);
    QuotientIs((W - w) % W, w);
    QuotientIsUnique((W - w) % W, w, target, TargetFor(w));
  }

  /** For work above zero that is the target of the work. */
  lemma TargetForIsTarget(w: nat)
    requires 0 < w < W
    ensures IsTarget(w, TargetFor(w))
  {
    hide IsQuotient;
    SmallModulo(w);
    SmallModulo(W - w);
    QuotientIs(W - w, w);
  }

  lemma Reorder(range: nat, spacing: nat, k: nat)
    ensures range * FACTOR * spacing == range * spacing * FACTOR
    ensures range * FACTOR * k * spacing == k * (range * spacing * FACTOR)
  {
  }

  lemma ClampedIs(time: int, full: nat, least: nat, slow: bool)
    ensures var most := full * FACTOR;
            Clamped(time, full, least, slow) ==
              if slow then (if time > 2 * most then 2 * most else if time < least then least else time)
              else if time > most + most / 2 then most + most / 2
              else if time > most + most / 4 then most + most / 4
              else if time > most then most
              else if time < least then least
              else time
  {
  }

  lemma QuotientIsSmaller(n: nat, b: nat, q: nat)
    requires n < W && b > 0 && IsQuotient(n, b, q)
    ensures q < W
  {
    if q >= W {
      TimesGrows(1, b, q);
    }
  }

  /** The work asked of a block lies between an eighth, or a sixth when the last blocks were
      not slow, and four times the average of the window. */
  ghost predicate InBounds(work: nat, time: int, adjust: int, range: nat, spacing: nat) {
    var w := WorkAsked(work, Timespan(time, adjust, range, spacing), spacing);
    && w * (range / 4) <= work
    && (range % 4 == 0 ==> w * range <= 4 * work)
    && work < (w + 1) * ((if adjust > 0 then 8 else 6) * range)
  }

  /** It does for every time and adjustment, if and only if the product of work and spacing fits
      or there is hardly any work at all. */
  lemma WorkIsBoundedIff(work: nat, range: nat, spacing: nat)
    requires range >= 4 && spacing > 0
    ensures (forall time: int, adjust: int :: InBounds(work, time, adjust, range, spacing))
            <==> work * spacing < W || work < 6 * range
  {
    hide InBounds, W;
    if work * spacing < W {
      forall time: int, adjust: int ensures InBounds(work, time, adjust, range, spacing) {
        WorkIsBounded(work, time, adjust, range, spacing);
      }
    } else if work < 6 * range {
      forall time: int, adjust: int ensures InBounds(work, time, adjust, range, spacing) {
        LittleWorkIsBounded(work, time, adjust, range, spacing);
      }
    } else {
      WrappedWorkIsLost(work, range, spacing);
    }
  }

  lemma LittleWorkIsBounded(work: nat, time: int, adjust: int, range: nat, spacing: nat)
    requires range >= 4 && spacing > 0 && work < 6 * range && work * spacing >= W
    ensures InBounds(work, time, adjust, range, spacing)
  {
    hide Timespan, WorkAsked;
    var span := Timespan(time, adjust, range, spacing);
    var w := WorkAsked(work, span, spacing);
    TimespanBounds(time, adjust, range, spacing);
    TimesGrows(1, range / 4, spacing);
    WorkAskedAtMost(work, span, spacing);
    UpperWork(work, range / 4, spacing, span, w);
    TimesGrows(1, w + 1, (if adjust > 0 then 8 else 6) * range);
    if range % 4 == 0 {
      FourTimes(w, range / 4);
    }
  }

  lemma WorkAskedAtMost(work: nat, span: nat, spacing: nat)
    requires span > 0 && work * spacing >= W
    ensures var w := WorkAsked(work, span, spacing);
            w * span <= work * spacing - W && (w == 0 || span <= work * spacing - W)
  {
    var scaled := work * spacing % W;
    Wrapped(work * spacing);
    QuotientIs(scaled, span);
    if WorkAsked(work, span, spacing) > 0 {
      TimesGrows(1, WorkAsked(work, span, spacing), span);
    }
  }

  lemma Wrapped(n: nat)
    requires n >= W
    ensures n % W <= n - W
  {
  }

  /** Otherwise a slow window asks for too little. */
  lemma WrappedWorkIsLost(work: nat, range: nat, spacing: nat)
    requires range >= 4 && spacing > 0 && work * spacing >= W && work >= 6 * range
    ensures !InBounds(work, 6 * (range * spacing) + 1, 0, range, spacing)
  {
    hide WorkAsked, W;
    var full := range * spacing;
    var span := 6 * full;
    var w := WorkAsked(work, span, spacing);
    TimesGrows(1, range, spacing);
    TimesGrows(range / FACTOR, range, spacing);
    assert Timespan(6 * full + 1, 0, range, spacing) == span;
    LostWork(work, span, spacing, w);
    SixTimes(w + 1, range, spacing);
    AtLeast((w + 1) * (6 * range), work, spacing);
  }

  lemma SixTimes(x: nat, range: nat, spacing: nat)
    ensures x * (6 * (range * spacing)) == (x * (6 * range)) * spacing
  {
  }

  lemma AtLeast(x: nat, y: nat, b: nat)
    requires x * b <= y * b && b > 0
    ensures x <= y
  {
    if x > y {
      TimesGrows(y + 1, x, b);
    }
  }

  lemma LostWork(work: nat, span: nat, spacing: nat, w: nat)
    requires span > 0 && work * spacing >= W && work * spacing >= span
    requires w == WorkAsked(work, span, spacing)
    ensures (w + 1) * span <= work * spacing
  {
    WorkAskedAtMost(work, span, spacing);
    assert (w + 1) * span == w * span + span;
    if span > W {
      SmallWork(work, span, spacing);
    }
  }

  lemma SmallWork(work: nat, span: nat, spacing: nat)
    requires span > W
    ensures WorkAsked(work, span, spacing) == 0
  {
    var scaled := work * spacing % W;
    QuotientIs(scaled, span);
    if scaled / span > 0 {
      TimesGrows(1, scaled / span, span);
    }
  }

  lemma WorkIsBounded(work: nat, time: int, adjust: int, range: nat, spacing: nat)
    requires range >= 4 && spacing > 0 && work * spacing < W
    ensures InBounds(work, time, adjust, range, spacing)
  {
    hide Timespan, WorkAsked;
    var span := Timespan(time, adjust, range, spacing);
    var w := WorkAsked(work, span, spacing);
    TimespanBounds(time, adjust, range, spacing);
    TimesGrows(1, range / 4, spacing);
    WorkAskedTimes(work, span, spacing);
    UpperWork(work, range / 4, spacing, span, w);
    LowerWork(work, (if adjust > 0 then 8 else 6) * range, spacing, span, w);
    if range % 4 == 0 {
      FourTimes(w, range / 4);
    }
  }

  lemma FourTimes(w: nat, x: nat)
    ensures w * (4 * x) == 4 * (w * x)
  {
  }

  /** The work asked for, times the time of the window, is the work of the window at the time a
      block should take, up to the rest of one division. */
  lemma WorkAskedTimes(work: nat, span: nat, spacing: nat)
    requires span > 0 && work * spacing < W
    ensures var w := WorkAsked(work, span, spacing);
            w * span <= work * spacing < w * span + span
  {
    SmallModulo(work * spacing);
    QuotientIs(work * spacing, span);
  }

  lemma UpperWork(work: nat, least: nat, spacing: nat, span: nat, w: nat)
    requires spacing > 0 && least * spacing <= span && w * span <= work * spacing
    ensures w * least <= work
  {
    TimesGrows(least * spacing, span, w);
    assert w * (least * spacing) == (w * least) * spacing;
    if w * least > work {
      TimesGrows(work + 1, w * least, spacing);
      assert false;
    }
  }

  lemma LowerWork(work: nat, most: nat, spacing: nat, span: nat, w: nat)
    requires spacing > 0 && span <= most * spacing && work * spacing < w * span + span
    ensures work < (w + 1) * most
  {
    TimesGrows(span, most * spacing, w + 1);
    assert (w + 1) * span == w * span + span;
    assert (w + 1) * (most * spacing) == ((w + 1) * most) * spacing;
    TimesLess(work, (w + 1) * most, spacing);
  }

  // ----- the bits of the next block

  datatype Rules = Rules(limit: nat, newHashHeight: int, rewardHeight: int, range: nat)

  function AtMostLimit(r: Rules, target: nat): nat {
    if target > r.limit then r.limit else target
  }

  /** ReduceWorkTarget. */
  function ReduceWorkTarget(r: Rules, prevBits: nat, scale: nat): nat {
    GetCompact(AtMostLimit(r, SetCompact(prevBits).value * scale % W))
  }

  /** The branches of GetLDAWorkRequired by height. */
  datatype Branch = Computed | Reduced(scale: nat) | AsBefore

  function BranchAt(r: Rules, height: int): Branch {
    if height < r.newHashHeight - 1 then Computed
    else if height == r.newHashHeight - 1 then Reduced(100)
    else if height < r.newHashHeight + r.range then AsBefore
    else if height < r.rewardHeight - 1 then Computed
    else if height == r.rewardHeight - 1 then Reduced(10)
    else if height < r.rewardHeight + r.range then AsBefore
    else Computed
  }

  /** GetLDAWorkRequired, after the target has been computed. */
  function LdaWorkRequired(r: Rules, height: int, prevBits: nat, target: nat): nat {
    match BranchAt(r, height)
    case Computed => GetCompact(AtMostLimit(r, target))
    case Reduced(scale) => ReduceWorkTarget(r, prevBits, scale)
    case AsBefore => prevBits
  }

  /** The two stretches of heights at which the bits stay. */
  predicate BitsStay(r: Rules, height: int) {
    height >= r.newHashHeight
    && (height < r.newHashHeight + r.range || r.rewardHeight <= height < r.rewardHeight + r.range)
  }

  /** The next bits by height. They stay in the stretches; at the block before each of the two
      heights they come from the previous target times 100 or 10, modulo 2^256; everywhere else
      from the computed target; and never from more than the limit. */
  lemma BitsByHeight(r: Rules, height: int, prevBits: nat, target: nat)
    requires 0 < r.limit < W
    ensures var bits, previous := LdaWorkRequired(r, height, prevBits, target), SetCompact(prevBits).value;
            if BitsStay(r, height) then bits == prevBits
            else if height == r.newHashHeight - 1
            then SetCompact(bits) == Decoded(Kept(Min(previous * 100 % W, r.limit)), false, false)
            else if height == r.rewardHeight - 1 && height >= r.newHashHeight
            then SetCompact(bits) == Decoded(Kept(Min(previous * 10 % W, r.limit)), false, false)
            else SetCompact(bits) == Decoded(Kept(Min(target, r.limit)), false, false)
  {
    hide SetCompact, GetCompact, Kept;
    var previous := SetCompact(prevBits).value;
    DecodeEncode(Min(target, r.limit));
    DecodeEncode(Min(previous * 100 % W, r.limit));
    DecodeEncode(Min(previous * 10 % W, r.limit));
  }

  function Min(a: nat, b: nat): nat {
    if a < b then a else b
  }

  /** Outside the stretches and the two heights a block that meets the next bits proves at least
      the work that was asked for. */
  lemma NextBitsKeepWork(r: Rules, height: int, prevBits: nat, w: nat, target: nat, p: nat)
    requires 0 < r.limit < W && IsTarget(w, target)
    requires !BitsStay(r, height) && height != r.newHashHeight - 1
    requires height != r.rewardHeight - 1 || height < r.newHashHeight
    requires IsProof(SetCompact(LdaWorkRequired(r, height, prevBits, target)).value, p)
    ensures p >= w
  {
    hide IsTarget, IsProof, SetCompact, Kept, LdaWorkRequired;
    BitsByHeight(r, height, prevBits, target);
    KeptIsClose(Min(target, r.limit));
    TargetIsLargest(w, target, Kept(Min(target, r.limit)), p);
  }

  /** Whatever the previous bits and the computed target are, the bits stay: at those heights and
      at no others. */
  lemma BitsStayIff(r: Rules, height: int)
    ensures (forall prevBits: nat, target: nat :: LdaWorkRequired(r, height, prevBits, target) == prevBits)
            <==> BitsStay(r, height)
  {
    hide SetCompact, GetCompact;
    if !BitsStay(r, height) {
      ZeroIsZero();
      assert LdaWorkRequired(r, height, 0, 0) != 0 || LdaWorkRequired(r, height, 1, 0) != 1
          || LdaWorkRequired(r, height, EXPONENT, 0) != EXPONENT;
    }
  }

  lemma ZeroIsZero()
    ensures SetCompact(EXPONENT).value == 0 && GetCompact(0) == 0
  {
    assert Shr8(0, 2) == 0;
  }

  /** The range check of CheckProofOfWork. */
  predicate WithinLimit(r: Rules, bits: nat) {
    var d := SetCompact(bits);
    !d.negative && d.value != 0 && !d.overflow && d.value <= r.limit
  }

  /** An encoded target passes if and only if it is not zero. */
  lemma EncodedWithinLimit(r: Rules, target: nat)
    requires 0 < r.limit < W
    ensures WithinLimit(r, GetCompact(AtMostLimit(r, target))) <==> target > 0
  {
    hide SetCompact, GetCompact, Kept;
    DecodeEncode(AtMostLimit(r, target));
    KeptIsClose(AtMostLimit(r, target));
  }

  /** When the bits of the previous block passed, the next bits pass if and only if they do not
      come from a zero: of the computed target, or of the previous one scaled modulo 2^256. */
  lemma NextIsWithinLimit(r: Rules, height: int, prevBits: nat, target: nat)
    requires 0 < r.limit < W && WithinLimit(r, prevBits)
    ensures WithinLimit(r, LdaWorkRequired(r, height, prevBits, target)) <==>
              match BranchAt(r, height)
              case Computed => target > 0
              case Reduced(scale) => SetCompact(prevBits).value * scale % W > 0
              case AsBefore => true
  {
    hide WithinLimit, AtMostLimit, SetCompact, GetCompact;
    EncodedWithinLimit(r, target);
    EncodedWithinLimit(r, SetCompact(prevBits).value * 100 % W);
    EncodedWithinLimit(r, SetCompact(prevBits).value * 10 % W);
  }

  const TWO254: nat := 0x4000000000000000_0000000000000000_0000000000000000_0000000000000000

  /** Of the targets below 2^255 only 2^254 becomes zero by the factor 100, and none by 10. */
  lemma ScaledIsZero(t: nat)
    requires 0 < t < 2 * TWO254
    ensures t * 100 % W == 0 <==> t == TWO254
    ensures t * 10 % W != 0
  {
    By100(t);
    By10(t);
  }

  lemma By100(t: nat)
    requires 0 < t < 2 * TWO254
    ensures t * 100 % W == 0 <==> t == TWO254
  {
    var q := t * 100 / W;
    assert t * 100 == W * q + t * 100 % W && q < 50;
    if t * 100 % W == 0 {
      assert 25 * t == TWO254 * q;
    }
  }

  lemma By10(t: nat)
    requires 0 < t < 2 * TWO254
    ensures t * 10 % W != 0
  {
    var q := t * 10 / W;
    assert t * 10 == W * q + t * 10 % W && q < 5;
  }

  /** So the bits pass through every height switch, under a limit below 2^255, except for a
      computed target of zero, and for a previous target of 2^254 where it is scaled by 100. */
  lemma SmallLimitIsKept(r: Rules, height: int, prevBits: nat, target: nat)
    requires 0 < r.limit < 2 * TWO254 && WithinLimit(r, prevBits)
    ensures WithinLimit(r, LdaWorkRequired(r, height, prevBits, target)) <==>
              match BranchAt(r, height)
              case Computed => target > 0
              case Reduced(scale) => scale == 100 ==> SetCompact(prevBits).value != TWO254
              case AsBefore => true
  {
    hide LdaWorkRequired, AtMostLimit, SetCompact, GetCompact;
    NextIsWithinLimit(r, height, prevBits, target);
    ScaledIsZero(SetCompact(prevBits).value);
  }

  /** It happens: under the limit of the regression test chain, at its first switch. */
  lemma ScaledTargetCanFail()
    ensures var r, prevBits := Rules(2 * TWO254 - 1, 1000, 2000, 60), 0x2040_0000;
            WithinLimit(r, prevBits) && !WithinLimit(r, LdaWorkRequired(r, 999, prevBits, 1))
  {
    hide LdaWorkRequired, GetCompact;
    var r, prevBits := Rules(2 * TWO254 - 1, 1000, 2000, 60), 0x2040_0000;
    BitsOfTwo254();
    SmallLimitIsKept(r, 999, prevBits, 1);
  }

  lemma BitsOfTwo254()
    ensures SetCompact(0x2040_0000) == Decoded(TWO254, false, false)
  {
    hide ShlWord, Shl8;
    assert 0x2040_0000 / EXPONENT == 32 && 0x2040_0000 % SIGN == 0x40_0000 && 0x2040_0000 / SIGN % 2 == 0;
    Shifted29();
    NothingLost(0x40_0000, 29);
  }

  lemma Shifted29()
    ensures Shl8(0x40_0000, 29) == TWO254
  {
    assert Shl8(0x40_0000, 8) == 0x40_0000 * 0x1_0000000000000000;
    assert Shl8(0x40_0000, 16) == 0x40_0000 * 0x1_0000000000000000_0000000000000000;
    assert Shl8(0x40_0000, 24) == 0x40_0000 * 0x1_0000000000000000_0000000000000000_0000000000000000;
  }

  /** A computed target is zero if and only if the work asked for is above 2^255. */
  lemma TargetIsZero(w: nat)
    requires 0 < w < W
    ensures TargetFor(w) == 0 <==> 2 * w > W
  {
    hide TargetFor, IsTarget;
    TargetForIsTarget(w);
    TargetTimes(w, TargetFor(w));
    if TargetFor(w) > 0 {
      TimesGrows(2, TargetFor(w) + 1, w);
    }
  }

  /** A block that meets the encoded target proves at least the work that was asked for. */
  lemma EncodedTargetKeepsWork(r: Rules, w: nat, target: nat, p: nat)
    requires r.limit < W && IsTarget(w, target) && target < W
    requires IsProof(SetCompact(GetCompact(AtMostLimit(r, target))).value, p)
    ensures p >= w
  {
    hide SetCompact, GetCompact, Kept, IsTarget, IsProof;
    var t := AtMostLimit(r, target);
    DecodeEncode(t);
    KeptIsClose(t);
    TargetIsLargest(w, target, Kept(t), p);
  }
}
