/** Channel plan: where the channels of one PHY bandwidth lie inside the competition band. */
module Channels {

  /** Number of channels that fit, as an 8-bit count. */
  function ChannelCount(competitionBw: real, phyBw: real): nat
    requires phyBw != 0.0
  {
    (competitionBw / phyBw).Floor % 256
  }

  /** The bandwidth left over, spread evenly between the channels and at both band edges. */
  function Guard(competitionBw: real, phyBw: real): real
    requires phyBw != 0.0
  {
    var count := ChannelCount(competitionBw, phyBw);
    (competitionBw - count as real * phyBw) / (count + 1) as real
  }

  function CenterFrequency(center: real, competitionBw: real, phyBw: real, channel: nat): real
    requires phyBw != 0.0
  {
    var guard := Guard(competitionBw, phyBw);
    center - competitionBw / 2.0 + guard + phyBw / 2.0 + channel as real * (phyBw + guard)
  }

  function LowerEdge(center: real, competitionBw: real, phyBw: real, channel: nat): real
    requires phyBw != 0.0
  {
    CenterFrequency(center, competitionBw, phyBw, channel) - phyBw / 2.0
  }

  function UpperEdge(center: real, competitionBw: real, phyBw: real, channel: nat): real
    requires phyBw != 0.0
  {
    CenterFrequency(center, competitionBw, phyBw, channel) + phyBw / 2.0
  }

  /** The band is wide enough for one channel and the 8-bit count does not overflow. */
  predicate Plannable(competitionBw: real, phyBw: real) {
    0.0 < phyBw <= competitionBw < 256.0 * phyBw
  }

  lemma CountBounds(competitionBw: real, phyBw: real)
    requires Plannable(competitionBw, phyBw)
    ensures var n := ChannelCount(competitionBw, phyBw);
            1 <= n <= 255 && n as real * phyBw <= competitionBw < (n + 1) as real * phyBw
  {
    var q := competitionBw / phyBw;
    assert q * phyBw == competitionBw;
    QuotientBounds(q, competitionBw, phyBw);
  }

  lemma QuotientBounds(q: real, competitionBw: real, phyBw: real)
    requires q * phyBw == competitionBw && Plannable(competitionBw, phyBw)
    ensures 1 <= q.Floor <= 255 && q.Floor % 256 == q.Floor
    ensures q.Floor as real * phyBw <= competitionBw < (q.Floor + 1) as real * phyBw
  {
    Below(1.0, q, phyBw, competitionBw);
    Below(256.0, q, phyBw, competitionBw);
    Floors(q);
    Below(q.Floor as real, q, phyBw, competitionBw);
    Below((q.Floor + 1) as real, q, phyBw, competitionBw);
  }

  lemma Below(a: real, q: real, c: real, product: real)
    requires 0.0 < c && q * c == product
    ensures a <= q <==> a * c <= product
  {
    Scale(a, q, c);
  }

  lemma Floors(q: real)
    requires 1.0 <= q && !(256.0 <= q)
    ensures 1 <= q.Floor <= 255 && q.Floor % 256 == q.Floor
    ensures (q.Floor as real) <= q && !((q.Floor + 1) as real <= q)
  {
  }

  lemma Scale(a: real, b: real, c: real)
    requires 0.0 < c
    ensures a <= b <==> a * c <= b * c
  {
    if a <= b {
      assert 0.0 <= (b - a) * c;
    } else {
      assert 0.0 < (a - b) * c;
    }
  }

  /** The count starts over at 256 channels: a band of just as many is planned for none. */
  lemma CountStartsOver(phyBw: real)
    requires phyBw > 0.0
    ensures ChannelCount(256.0 * phyBw, phyBw) == 0
  {
    assert 256.0 * phyBw / phyBw == 256.0;
  }

  /** Channels and guards fill the band exactly. */
  lemma BandIsFilled(competitionBw: real, phyBw: real)
    requires Plannable(competitionBw, phyBw)
    ensures var n, guard := ChannelCount(competitionBw, phyBw), Guard(competitionBw, phyBw);
            && 0.0 <= guard
            && n as real * phyBw + (n + 1) as real * guard == competitionBw
  {
    CountBounds(competitionBw, phyBw);
    var n := ChannelCount(competitionBw, phyBw);
    var left := competitionBw - n as real * phyBw;
    assert Guard(competitionBw, phyBw) * (n + 1) as real == left;
    Scale(0.0, Guard(competitionBw, phyBw), (n + 1) as real);
  }

  /** The same guard precedes the first channel, separates neighbours and follows the last. */
  lemma EvenSpacing(center: real, competitionBw: real, phyBw: real, channel: nat)
    requires Plannable(competitionBw, phyBw)
    ensures var guard := Guard(competitionBw, phyBw);
            && LowerEdge(center, competitionBw, phyBw, 0) == center - competitionBw / 2.0 + guard
            && LowerEdge(center, competitionBw, phyBw, channel + 1)
               == UpperEdge(center, competitionBw, phyBw, channel) + guard
            && (channel + 1 == ChannelCount(competitionBw, phyBw) ==>
                  UpperEdge(center, competitionBw, phyBw, channel) + guard == center + competitionBw / 2.0)
  {
    CountBounds(competitionBw, phyBw);
    BandIsFilled(competitionBw, phyBw);
    var n, pitch := ChannelCount(competitionBw, phyBw), phyBw + Guard(competitionBw, phyBw);
    assert (channel + 1) as real * pitch == channel as real * pitch + pitch;
    assert n as real * pitch == competitionBw - Guard(competitionBw, phyBw);
  }

  /** Any two channels, planned or not, are disjoint. */
  lemma Disjoint(center: real, competitionBw: real, phyBw: real, low: nat, high: nat)
    requires Plannable(competitionBw, phyBw) && low < high
    ensures UpperEdge(center, competitionBw, phyBw, low) <= LowerEdge(center, competitionBw, phyBw, high)
  {
    BandIsFilled(competitionBw, phyBw);
    var pitch := phyBw + Guard(competitionBw, phyBw);
    Scale((low + 1) as real, high as real, pitch);
  }

  /** A channel lies inside the band exactly when its number is below the count; the transmitter
      itself only checks the number against the fixed MAX_NUM_OF_CHANNELS. */
  lemma InsideBandExactly(center: real, competitionBw: real, phyBw: real, channel: nat)
    requires Plannable(competitionBw, phyBw)
    ensures channel < ChannelCount(competitionBw, phyBw)
       <==> && center - competitionBw / 2.0 <= LowerEdge(center, competitionBw, phyBw, channel)
            && UpperEdge(center, competitionBw, phyBw, channel) <= center + competitionBw / 2.0
  {
    CountBounds(competitionBw, phyBw);
    BandIsFilled(competitionBw, phyBw);
    var n, guard := ChannelCount(competitionBw, phyBw), Guard(competitionBw, phyBw);
    var pitch := phyBw + guard;
    assert 0.0 <= channel as real * pitch by { Scale(0.0, channel as real, pitch); }
    assert UpperEdge(center, competitionBw, phyBw, channel)
        == center - competitionBw / 2.0 + (channel as real * pitch + pitch);
    PitchesThatFit(channel, n, phyBw, guard, competitionBw);
  }

  lemma PitchesThatFit(channel: nat, n: nat, phyBw: real, guard: real, competitionBw: real)
    requires 0.0 < phyBw && 0.0 <= guard && n as real * phyBw + (n + 1) as real * guard == competitionBw
    ensures channel < n <==> channel as real * (phyBw + guard) + (phyBw + guard) <= competitionBw
  {
    var pitch := phyBw + guard;
    assert (channel + 1) as real * pitch == channel as real * pitch + pitch;
    if channel < n {
      Scale((channel + 1) as real, n as real, pitch);
      assert n as real * pitch == competitionBw - guard;
    } else {
      Scale((n + 1) as real, (channel + 1) as real, pitch);
      assert (n + 1) as real * pitch == competitionBw + phyBw;
    }
  }
}
