/** Rectangular and diagonal interleaving of a 456-bit block (TS 45.003, sections 3.1.3 and 4.1.4),
    and the normal burst that carries one payload. */
module Interleaver {
  import opened Bits

  const NORMAL_BURST_BITS := 148
  const TRAINING_BITS := 26

  datatype BurstPayload = BurstPayload(data: seq<bool>, hl: bool, hu: bool) {
    predicate Valid() {
      |data| == PAYLOAD_BITS
    }
  }

  const EMPTY := BurstPayload(Zeros(PAYLOAD_BITS), false, false)

  predicate ValidBursts(bursts: seq<BurstPayload>, n: nat) {
    |bursts| == n && forall b :: 0 <= b < n ==> bursts[b].Valid()
  }

  /** Half-burst column of coded bit `k`. */
  function Column(k: nat): (h: nat)
    ensures h < 57
  {
    (49 * k) % 57
  }

  /** Position of coded bit `k` inside its burst: even columns for the first four bursts, odd for the others. */
  function Position(k: nat): (j: nat)
    ensures j < PAYLOAD_BITS
  {
    2 * Column(k) + k % 8 / 4
  }

  /** The one bit that lands in column `h` of diagonal burst `b`. */
  function Origin(b: nat, h: nat): (k: nat)
    ensures k < CODED_BITS
  {
    (57 * b + 64 * h) % CODED_BITS
  }

  // ----- 456 = 8 * 57, and 49 * 7 = 1 (mod 57) -----

  lemma OriginLands(b: nat, h: nat)
    requires b < 8 && h < 57
    ensures Origin(b, h) % 8 == b && Column(Origin(b, h)) == h
  {
    var n := 57 * b + 64 * h;
    var q, k := n / 456, n % 456;
    assert k == 8 * (7 * b + 8 * h - 57 * q) + b;
    assert 49 * k == 57 * (49 * b + 55 * h - 49 * 8 * q) + h;
  }

  lemma LandingsAreDistinct(k: nat, l: nat)
    requires k < CODED_BITS && l < CODED_BITS
    requires k % 8 == l % 8 && Column(k) == Column(l)
    ensures k == l
  {
    var d := k - l;
    var a, c := (49 * k) / 57 - (49 * l) / 57, k / 8 - l / 8;
    assert 49 * d == 57 * a && d == 8 * c;
    assert d == 57 * (7 * a - 6 * d);
    assert -456 < d < 456;
    assert -8 < 7 * a - 6 * d < 8;
  }

  lemma OriginOfPosition(k: nat)
    requires k < CODED_BITS
    ensures Origin(k % 8, Column(k)) == k
  {
    OriginLands(k % 8, Column(k));
    LandingsAreDistinct(k, Origin(k % 8, Column(k)));
  }

  lemma PositionSplits(k: nat)
    ensures Position(k) / 2 == Column(k) && Position(k) % 2 == k % 8 / 4
    ensures k % 4 + 4 * (k % 8 / 4) == k % 8
  {
    hide Column;
  }

  // ----- Specifications -----

  /** Burst `b` of the diagonal interleaver: half of its positions carry the block, the other half are clear. */
  function DiagonalBurst(coded: seq<bool>, b: nat): (r: BurstPayload)
    requires |coded| == CODED_BITS && b < 8
    ensures r.Valid()
  {
    BurstPayload(seq(PAYLOAD_BITS, j requires 0 <= j < PAYLOAD_BITS => j % 2 == b / 4 && coded[Origin(b, j / 2)]),
                 false, false)
  }

  function Diagonal(coded: seq<bool>): (r: seq<BurstPayload>)
    requires |coded| == CODED_BITS
    ensures ValidBursts(r, 8)
  {
    seq(8, b requires 0 <= b < 8 => DiagonalBurst(coded, b))
  }

  function Undiagonal(bursts: seq<BurstPayload>): (coded: seq<bool>)
    requires ValidBursts(bursts, 8)
    ensures |coded| == CODED_BITS
  {
    seq(CODED_BITS, k requires 0 <= k < CODED_BITS => bursts[k % 8].data[Position(k)])
  }

  /** Burst `b` of the rectangular interleaver; both stealing flags are set. */
  function RectangularBurst(coded: seq<bool>, b: nat): (r: BurstPayload)
    requires |coded| == CODED_BITS && b < 4
    ensures r.Valid()
  {
    BurstPayload(seq(PAYLOAD_BITS, j requires 0 <= j < PAYLOAD_BITS => coded[Origin(b + 4 * (j % 2), j / 2)]),
                 true, true)
  }

  function Rectangular(coded: seq<bool>): (r: seq<BurstPayload>)
    requires |coded| == CODED_BITS
    ensures ValidBursts(r, 4)
  {
    seq(4, b requires 0 <= b < 4 => RectangularBurst(coded, b))
  }

  function Unrectangular(bursts: seq<BurstPayload>): (coded: seq<bool>)
    requires ValidBursts(bursts, 4)
    ensures |coded| == CODED_BITS
  {
    seq(CODED_BITS, k requires 0 <= k < CODED_BITS => bursts[k % 4].data[Position(k)])
  }

  // ----- Inverses -----

  lemma DiagonalRoundTrip(coded: seq<bool>)
    requires |coded| == CODED_BITS
    ensures Undiagonal(Diagonal(coded)) == coded
  {
    forall k | 0 <= k < CODED_BITS
      ensures Undiagonal(Diagonal(coded))[k] == coded[k]
    {
      hide Column, Position, Origin;
      OriginOfPosition(k);
      PositionSplits(k);
      assert Undiagonal(Diagonal(coded))[k] == DiagonalBurst(coded, k % 8).data[Position(k)];
    }
  }

  lemma RectangularRoundTrip(coded: seq<bool>)
    requires |coded| == CODED_BITS
    ensures Unrectangular(Rectangular(coded)) == coded
  {
    forall k | 0 <= k < CODED_BITS
      ensures Unrectangular(Rectangular(coded))[k] == coded[k]
    {
      hide Column, Position, Origin;
      OriginOfPosition(k);
      PositionSplits(k);
    }
  }

  /** Every payload position of the four bursts carries exactly one coded bit. */
  lemma RectangularIsOnto(bursts: seq<BurstPayload>)
    requires ValidBursts(bursts, 4)
    requires forall b :: 0 <= b < 4 ==> bursts[b].hl && bursts[b].hu
    ensures Rectangular(Unrectangular(bursts)) == bursts
  {
    var again := Rectangular(Unrectangular(bursts));
    forall b | 0 <= b < 4
      ensures again[b] == bursts[b]
    {
      forall j | 0 <= j < PAYLOAD_BITS
        ensures again[b].data[j] == bursts[b].data[j]
      {
        RectangularOrigin(b, j);
      }
      assert again[b].data == bursts[b].data;
    }
  }

  // ----- The loops -----

  /** Scatter the block over `n` bursts (4 or 8). */
  method Scatter(coded: seq<bool>, n: nat) returns (grid: array2<bool>)
    requires |coded| == CODED_BITS && (n == 4 || n == 8)
    ensures fresh(grid) && grid.Length0 == n && grid.Length1 == PAYLOAD_BITS
    ensures forall k :: 0 <= k < CODED_BITS ==> grid[k % n, Position(k)] == coded[k]
    ensures forall b, j :: 0 <= b < n && 0 <= j < PAYLOAD_BITS && grid[b, j] ==>
              exists k :: 0 <= k < CODED_BITS && k % n == b && Position(k) == j
  {
    grid := new bool[n, PAYLOAD_BITS]((_, _) => false);
    for k := 0 to CODED_BITS
      invariant forall l :: 0 <= l < k ==> grid[l % n, Position(l)] == coded[l]
      invariant forall b, j :: 0 <= b < n && 0 <= j < PAYLOAD_BITS && grid[b, j] ==>
                  exists l :: 0 <= l < CODED_BITS && l % n == b && Position(l) == j
    {
      forall l | 0 <= l < k
        ensures !(l % n == k % n && Position(l) == Position(k))
      {
        PositionsAreDistinct(l, k, n);
      }
      grid[k % n, Position(k)] := coded[k];
    }
  }

  lemma PositionsAreDistinct(k: nat, l: nat, n: nat)
    requires k < CODED_BITS && l < CODED_BITS && k != l && (n == 4 || n == 8)
    ensures !(k % n == l % n && Position(k) == Position(l))
  {
    if k % n == l % n && Position(k) == Position(l) {
      hide Column, Position;
      PositionSplits(k);
      PositionSplits(l);
      assert k % 8 == l % 8;
      LandingsAreDistinct(k, l);
    }
  }

  method Interleave(coded: seq<bool>) returns (bursts: seq<BurstPayload>)
    requires |coded| == CODED_BITS
    ensures bursts == Diagonal(coded)
  {
    var grid := Scatter(coded, 8);
    forall b, j | 0 <= b < 8 && 0 <= j < PAYLOAD_BITS
      ensures grid[b, j] == DiagonalBurst(coded, b).data[j]
    {
      if j % 2 == b / 4 {
        OriginLands(b, j / 2);
        assert Position(Origin(b, j / 2)) == j;
      } else if grid[b, j] {
        var k :| 0 <= k < CODED_BITS && k % 8 == b && Position(k) == j;
      }
    }
    bursts := Collect(grid, false);
    assert forall b :: 0 <= b < 8 ==> bursts[b].data == DiagonalBurst(coded, b).data;
  }

  /** Each place of a rectangular burst is filled by its origin. */
  lemma RectangularOrigin(b: nat, j: nat)
    requires b < 4 && j < PAYLOAD_BITS
    ensures var k := Origin(b + 4 * (j % 2), j / 2);
            k < CODED_BITS && k % 4 == b && Position(k) == j
  {
    hide Origin, Column, Position;
    var k := Origin(b + 4 * (j % 2), j / 2);
    OriginLands(b + 4 * (j % 2), j / 2);
    PositionSplits(k);
  }

  method InterleaveSacch(coded: seq<bool>) returns (bursts: seq<BurstPayload>)
    requires |coded| == CODED_BITS
    ensures bursts == Rectangular(coded)
  {
    var grid := Scatter(coded, 4);
    forall b, j | 0 <= b < 4 && 0 <= j < PAYLOAD_BITS
      ensures grid[b, j] == RectangularBurst(coded, b).data[j]
    {
      RectangularOrigin(b, j);
    }
    bursts := Collect(grid, true);
    assert forall b :: 0 <= b < 4 ==> bursts[b].data == RectangularBurst(coded, b).data;
  }

  method Collect(grid: array2<bool>, stolen: bool) returns (bursts: seq<BurstPayload>)
    requires grid.Length1 == PAYLOAD_BITS
    ensures ValidBursts(bursts, grid.Length0)
    ensures forall b, j :: 0 <= b < grid.Length0 && 0 <= j < PAYLOAD_BITS ==> bursts[b].data[j] == grid[b, j]
    ensures forall b :: 0 <= b < grid.Length0 ==> bursts[b].hl == bursts[b].hu == stolen
  {
    bursts := [];
    for b := 0 to grid.Length0
      invariant ValidBursts(bursts, b)
      invariant forall c, j :: 0 <= c < b && 0 <= j < PAYLOAD_BITS ==> bursts[c].data[j] == grid[c, j]
      invariant forall c :: 0 <= c < b ==> bursts[c].hl == bursts[c].hu == stolen
    {
      var data := seq(PAYLOAD_BITS, j requires 0 <= j < PAYLOAD_BITS reads grid => grid[b, j]);
      bursts := bursts + [BurstPayload(data, stolen, stolen)];
    }
  }

  method Deinterleave(bursts: seq<BurstPayload>) returns (coded: seq<bool>)
    requires ValidBursts(bursts, 8)
    ensures coded == Undiagonal(bursts)
  {
    var result := new bool[CODED_BITS];
    for k := 0 to CODED_BITS
      invariant forall l :: 0 <= l < k ==> result[l] == bursts[l % 8].data[Position(l)]
    {
      result[k] := bursts[k % 8].data[Position(k)];
    }
    coded := result[..];
  }

  method DeinterleaveSacch(bursts: seq<BurstPayload>) returns (coded: seq<bool>)
    requires ValidBursts(bursts, 4)
    ensures coded == Unrectangular(bursts)
  {
    var result := new bool[CODED_BITS];
    for k := 0 to CODED_BITS
      invariant forall l :: 0 <= l < k ==> result[l] == bursts[l % 4].data[Position(l)]
    {
      result[k] := bursts[k % 4].data[Position(k)];
    }
    coded := result[..];
  }

  // ----- Normal bursts -----

  /** 3 tail, 57 data, stealing flag, 26 training, stealing flag, 57 data, 3 tail bits. */
  function PackNormalBurst(payload: BurstPayload, training: seq<bool>): (bits: seq<bool>)
    requires payload.Valid() && |training| == TRAINING_BITS
    ensures |bits| == NORMAL_BURST_BITS
  {
    Zeros(3) + payload.data[..57] + [payload.hl] + training + [payload.hu] + payload.data[57..] + Zeros(3)
  }

  function UnpackNormalBurst(bits: seq<bool>): (payload: BurstPayload)
    requires |bits| == NORMAL_BURST_BITS
    ensures payload.Valid()
  {
    BurstPayload(bits[3..60] + bits[88..145], bits[60], bits[87])
  }

  /** The 148 places in figures: data at 3 to 59 and 88 to 144, the flags at 60 and 87 beside the training sequence. */
  lemma NormalBurstPlaces(payload: BurstPayload, training: seq<bool>)
    requires payload.Valid() && |training| == TRAINING_BITS
    ensures var bits := PackNormalBurst(payload, training);
            bits[3..60] == payload.data[..57] && bits[88..145] == payload.data[57..] &&
            bits[60] == payload.hl && bits[87] == payload.hu && bits[61..87] == training &&
            bits[..3] == Zeros(3) && bits[145..] == Zeros(3)
  {
  }

  lemma NormalBurstRoundTrip(payload: BurstPayload, training: seq<bool>)
    requires payload.Valid() && |training| == TRAINING_BITS
    ensures UnpackNormalBurst(PackNormalBurst(payload, training)) == payload
  {
    var bits := PackNormalBurst(payload, training);
    assert bits[3..60] == payload.data[..57];
    assert bits[88..145] == payload.data[57..];
    assert payload.data == payload.data[..57] + payload.data[57..];
  }
}
