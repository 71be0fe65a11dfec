/**
 * TPC crate readout. One thread puts variable-size tiles, one per board and trigger, into a circular
 * buffer of 16-bit words; the other finds the tiles again by the sizes in their headers and takes
 * them out, one per board, as a fragment.
 */
module PhysCrate {
  import opened Sequences

  type Word = w: nat | w < 0x1_0000

  /** sizeof(DataTile) in bytes and in words; the header's packSize is in words 12 and 13. */
  const TILE_BYTES: nat := 32
  const TILE_WORDS: nat := 16

  /**
   * packSize of the tile at a place in the buffer: its four bytes, kept in two little-endian words, are
   * in network order.
   */
  function PackSize(words: seq<Word>, at: nat): nat
    requires at + TILE_WORDS <= |words|
  {
    Ntohl(words[at + 12], words[at + 13])
  }

  function Ntohl(first: nat, second: nat): nat {
    first % 0x100 * 0x100_0000 + first / 0x100 * 0x1_0000 + second % 0x100 * 0x100 + second / 0x100
  }

  /** Bytes b0 to b3 as two little-endian words, read as a number of which b0 is the most significant byte. */
  lemma {:induction false} NetworkOrder(b0: nat, b1: nat, b2: nat, b3: nat)
    requires b0 < 256 && b1 < 256 && b2 < 256 && b3 < 256
    ensures Ntohl(b0 + 256 * b1, b2 + 256 * b3) == ((b0 * 256 + b1) * 256 + b2) * 256 + b3
  {
    assert (b0 + 256 * b1) / 256 == b1 && (b2 + 256 * b3) / 256 == b3;
  }

  /** A tile holds more than its header and is as long as its packSize says, an odd last byte being dropped. */
  predicate WellFormed(tile: seq<Word>) {
    |tile| > TILE_WORDS && PackSize(tile, 0) / 2 == |tile|
  }

  predicate IsOdd(tile: seq<Word>) {
    |tile| >= TILE_WORDS && PackSize(tile, 0) % 2 == 1
  }

  /** The number of tiles of odd size. */
  function Odds(tiles: seq<seq<Word>>): nat {
    if tiles == [] then 0 else (if IsOdd(tiles[0]) then 1 else 0) + Odds(tiles[1..])
  }

  lemma {:induction false} OddsJoin(a: seq<seq<Word>>, b: seq<seq<Word>>)
    ensures Odds(a + b) == Odds(a) + Odds(b)
    decreases |a|
  {
    if a == [] {
      assert a + b == b;
    } else {
      assert (a + b)[1..] == a[1..] + b;
      OddsJoin(a[1..], b);
    }
  }

  lemma {:induction false} OddsNext(tiles: seq<seq<Word>>, n: nat)
    requires n < |tiles|
    ensures Odds(tiles[..n + 1]) == Odds(tiles[..n]) + if IsOdd(tiles[n]) then 1 else 0
  {
    var one := [tiles[n]];
    OddsJoin(tiles[..n], one);
    assert tiles[..n + 1] == tiles[..n] + one && Odds(one[1..]) == 0;
  }

  lemma {:induction false} OddsGrow(tiles: seq<seq<Word>>, n: nat, m: nat)
    requires n <= m <= |tiles|
    ensures Odds(tiles[..n]) <= Odds(tiles[..m])
  {
    OddsJoin(tiles[..n], tiles[n..m]);
    assert tiles[..m] == tiles[..n] + tiles[n..m];
  }

  /** At most one of the tiles that make up the next fragment, as far as they are there, is of odd size. */
  predicate FewOdds(tiles: seq<seq<Word>>, boards: nat) {
    Odds(tiles[..if boards < |tiles| then boards else |tiles|]) <= 1
  }

  lemma {:induction false} FewBefore(tiles: seq<seq<Word>>, boards: nat, n: nat)
    requires FewOdds(tiles, boards) && n <= boards && n <= |tiles|
    ensures Odds(tiles[..n]) <= 1
  {
    OddsGrow(tiles, n, if boards < |tiles| then boards else |tiles|);
  }

  /** The bytes of some tiles, by their packSizes. */
  function BytesOf(tiles: seq<seq<Word>>): nat {
    2 * |Flat(tiles)| + Odds(tiles)
  }

  predicate AllWellFormed(tiles: seq<seq<Word>>) {
    forall i {:trigger WellFormed(tiles[i])} | 0 <= i < |tiles| :: WellFormed(tiles[i])
  }

  function Flat(tiles: seq<seq<Word>>): seq<Word> {
    if tiles == [] then [] else tiles[0] + Flat(tiles[1..])
  }

  lemma {:induction false} FlatJoins(a: seq<seq<Word>>, b: seq<seq<Word>>)
    ensures Flat(a + b) == Flat(a) + Flat(b)
    decreases |a|
  {
    if a == [] {
      assert a + b == b;
    } else {
      assert (a + b)[1..] == a[1..] + b;
      FlatJoins(a[1..], b);
    }
  }

  lemma FlatSplits(tiles: seq<seq<Word>>, n: nat)
    requires n <= |tiles|
    ensures Flat(tiles) == Flat(tiles[..n]) + Flat(tiles[n..])
  {
    FlatJoins(tiles[..n], tiles[n..]);
    assert tiles == tiles[..n] + tiles[n..];
  }

  lemma FlatNext(tiles: seq<seq<Word>>, n: nat)
    requires n < |tiles|
    ensures Flat(tiles[..n + 1]) == Flat(tiles[..n]) + tiles[n]
  {
    FlatOne(tiles[n]);
    FlatJoins(tiles[..n], [tiles[n]]);
    assert tiles[..n + 1] == tiles[..n] + [tiles[n]];
  }

  lemma FlatOne(tile: seq<Word>)
    ensures Flat([tile]) == tile
  {
    var one: seq<seq<Word>> := [tile];
    assert one[1..] == [] && Flat(one) == tile + Flat(one[1..]);
  }

  /** Words read at a place inside a buffer are those of the tile found there. */
  lemma PackSizeOfTile(words: seq<Word>, at: nat, tile: seq<Word>)
    requires |tile| >= TILE_WORDS && at + |tile| <= |words| && words[at..at + |tile|] == tile
    ensures PackSize(words, at) == PackSize(tile, 0)
  {
    assert words[at + 12] == tile[12] && words[at + 13] == tile[13];
    assert words[at + 12..at + 14] == tile[12..14];
  }

  /** A tile is where the sizes of the tiles before it say. */
  lemma TileIsThere(tiles: seq<seq<Word>>, n: nat, at: nat)
    requires n < |tiles| && WellFormed(tiles[n]) && at == |Flat(tiles[..n])|
    ensures |Flat(tiles[..n + 1])| == at + |tiles[n]| <= |Flat(tiles)|
    ensures PackSize(Flat(tiles), at) == PackSize(tiles[n], 0)
    ensures BytesOf(tiles[..n + 1]) == BytesOf(tiles[..n]) + PackSize(tiles[n], 0)
  {
    FlatSplits(tiles, n);
    FlatNext(tiles, n);
    OddsNext(tiles, n);
    assert Flat(tiles[n..]) == tiles[n] + Flat(tiles[n..][1..]);
    assert Flat(tiles)[at..at + |tiles[n]|] == tiles[n];
    PackSizeOfTile(Flat(tiles), at, tiles[n]);
  }

  /** Behind whole tiles there is either the end of the data or all of the next tile. */
  lemma NextTileIsWhole(tiles: seq<seq<Word>>, n: nat)
    requires n <= |tiles|
    ensures |Flat(tiles[..n])| <= |Flat(tiles)|
    ensures |Flat(tiles[..n])| < |Flat(tiles)| ==> n < |tiles|
  {
    FlatSplits(tiles, n);
  }

  datatype Producer = Waiting | Cleared(tile: seq<Word>)

  datatype Consumer =
    | Idle
    | AtHeader(board: nat, bytes: nat)
    | AtBody(board: nat, bytes: nat, size: nat)
    | Copied(bytes: nat)
    | Stopped

  datatype Crate = Crate(buffer: seq<Word>, producer: Producer, consumer: Consumer, zeroCount: nat,
                         inserted: seq<seq<Word>>, out: seq<seq<Word>>)

  datatype Action =
    | SeeCapacity(tile: seq<Word>) // the producer has a tile and finds room for it
    | Insert
    | Look                         // the consumer's next look at the buffer's size, and what follows from it
    | Emit
    | Erase(consistent: bool)      // whether the boards of the fragment agree on the event

  predicate Enabled(c: Crate, boards: nat, capacity: nat, a: Action) {
    match a
    case SeeCapacity(tile) => c.producer.Waiting? && WellFormed(tile) && |tile| <= capacity - |c.buffer|
    case Insert => c.producer.Cleared?
    case Look => c.consumer.Idle? || (c.consumer.AtHeader? && c.consumer.board < boards) || c.consumer.AtBody?
    case Emit => c.consumer.AtHeader? && c.consumer.board == boards && c.consumer.bytes / 2 <= |c.buffer|
    case Erase(_) => c.consumer.Copied? && c.consumer.bytes / 2 <= |c.buffer|
  }

  /** What the consumer makes of the header it finds, when the buffer reaches that far. */
  function LookAtHeader(c: Crate): Crate
    requires c.consumer.AtHeader?
  {
    var board, bytes := c.consumer.board, c.consumer.bytes;
    if |c.buffer| < (bytes + TILE_BYTES) / 2 then c.(consumer := Idle)
    else
      var size := PackSize(c.buffer, bytes / 2);
      if size == 0 then
        if c.zeroCount == 10 then c.(consumer := Stopped) else c.(consumer := Idle, zeroCount := c.zeroCount + 1)
      else c.(consumer := AtBody(board, bytes, size))
  }

  function LookAtBody(c: Crate): Crate
    requires c.consumer.AtBody?
  {
    var board, bytes, size := c.consumer.board, c.consumer.bytes, c.consumer.size;
    if |c.buffer| < (bytes + size) / 2 then c.(consumer := Idle)
    else c.(consumer := AtHeader(board + 1, bytes + size))
  }

  function Do(c: Crate, boards: nat, capacity: nat, a: Action): Crate
    requires Enabled(c, boards, capacity, a)
  {
    match a
    case SeeCapacity(tile) => c.(producer := Cleared(tile))
    case Insert =>
      c.(producer := Waiting, buffer := c.buffer + c.producer.tile, inserted := c.inserted + [c.producer.tile])
    case Look =>
      if c.consumer.Idle? then
        if |c.buffer| <= TILE_WORDS then c else c.(consumer := AtHeader(0, 0))
      else if c.consumer.AtHeader? then LookAtHeader(c)
      else LookAtBody(c)
    case Emit => c.(consumer := Copied(c.consumer.bytes), out := c.out + [c.buffer[..c.consumer.bytes / 2]])
    case Erase(consistent) =>
      c.(consumer := Idle, buffer := c.buffer[c.consumer.bytes / 2..],
         zeroCount := if consistent then 0 else c.zeroCount)
  }

  const START: Crate := Crate([], Waiting, Idle, 0, [], [])

  ghost predicate Run(states: seq<Crate>, actions: seq<Action>, boards: nat, capacity: nat) {
    && |states| == |actions| + 1 && states[0] == START
    && forall i {:trigger Enabled(states[i], boards, capacity, actions[i])} | 0 <= i < |actions| ::
         Enabled(states[i], boards, capacity, actions[i])
         && states[i + 1] == Do(states[i], boards, capacity, actions[i])
  }

  /** Fragments taken out of the buffer for good. */
  function Taken(c: Crate): nat {
    if c.consumer.Copied? && c.out != [] then |c.out| - 1 else |c.out|
  }

  /** The consumer's place is a tile boundary. */
  predicate AtTile(tiles: seq<seq<Word>>, consumer: Consumer, boards: nat, last: seq<Word>) {
    match consumer
    case Idle => true
    case AtHeader(board, bytes) => board <= boards && board <= |tiles| && bytes == BytesOf(tiles[..board])
    case AtBody(board, bytes, size) =>
      && board < boards && board < |tiles| && bytes == BytesOf(tiles[..board])
      && |tiles[board]| >= TILE_WORDS && size == PackSize(tiles[board], 0)
    case Copied(bytes) => boards <= |tiles| && last == Flat(tiles[..boards]) && bytes / 2 == |last|
    case Stopped => false
  }

  /** The number of the first tile of fragment k: k times the number of boards. */
  function First(k: nat, boards: nat): nat {
    if k == 0 then 0 else First(k - 1, boards) + boards
  }

  lemma {:induction false} FirstIsProduct(k: nat, boards: nat)
    ensures First(k, boards) == k * boards
  {
    if k > 0 {
      FirstIsProduct(k - 1, boards);
    }
  }

  /** Fragment k is the tiles of its boards, in order. */
  predicate FragmentIs(tiles: seq<seq<Word>>, boards: nat, fragment: seq<Word>, k: nat) {
    First(k, boards) + boards <= |tiles| && fragment == Flat(tiles[First(k, boards)..First(k, boards) + boards])
  }

  predicate FragmentsAre(tiles: seq<seq<Word>>, boards: nat, out: seq<seq<Word>>) {
    forall k {:trigger FragmentIs(tiles, boards, out[k], k)} | 0 <= k < |out| :: FragmentIs(tiles, boards, out[k], k)
  }

  predicate GroupFits(inserted: seq<seq<Word>>, boards: nat, k: nat) {
    First(k, boards) <= |inserted| ==> FewOdds(inserted[First(k, boards)..], boards)
  }

  /** No fragment is to hold two tiles of odd size. */
  ghost predicate OddsFit(inserted: seq<seq<Word>>, boards: nat) {
    forall k: nat {:trigger GroupFits(inserted, boards, k)} :: GroupFits(inserted, boards, k)
  }

  lemma {:induction false} OddsFitEarlier(inserted: seq<seq<Word>>, tile: seq<Word>, boards: nat)
    requires OddsFit(inserted + [tile], boards)
    ensures OddsFit(inserted, boards)
  {
    forall k: nat
      ensures GroupFits(inserted, boards, k)
    {
      assert GroupFits(inserted + [tile], boards, k);
      var first := First(k, boards);
      if first <= |inserted| {
        var tiles, more := inserted[first..], (inserted + [tile])[first..];
        var n := if boards < |tiles| then boards else |tiles|;
        assert more[..n] == tiles[..n];
        FewBefore(more, boards, n);
      }
    }
  }

  ghost predicate Inv(c: Crate, boards: nat, capacity: nat) {
    && AllWellFormed(c.inserted)
    && OddsFit(c.inserted, boards)
    && First(Taken(c), boards) <= |c.inserted|
    && c.buffer == Flat(c.inserted[First(Taken(c), boards)..])
    && |c.buffer| <= capacity
    && (c.producer.Cleared? ==> WellFormed(c.producer.tile) && |c.buffer| + |c.producer.tile| <= capacity)
    && (c.consumer.Copied? ==> c.out != [])
    && AtTile(c.inserted[First(Taken(c), boards)..], c.consumer, boards, if c.out == [] then [] else c.out[|c.out| - 1])
    && FragmentsAre(c.inserted, boards, c.out)
  }

  lemma InsertKeepsInv(c: Crate, boards: nat, capacity: nat)
    requires Inv(c, boards, capacity) && Enabled(c, boards, capacity, Insert)
    requires OddsFit(c.inserted + [c.producer.tile], boards)
    ensures Inv(Do(c, boards, capacity, Insert), boards, capacity)
  {
    var first, tile := First(Taken(c), boards), c.producer.tile;
    var tiles := c.inserted[first..];
    assert (c.inserted + [tile])[first..] == tiles + [tile];
    FlatOne(tile);
    FlatJoins(tiles, [tile]);
    MoreTilesKeepPlace(tiles, tile, c.consumer, boards, if c.out == [] then [] else c.out[|c.out| - 1]);
    MoreTilesKeepForm(c.inserted, tile);
    MoreTilesKeepFragments(c.inserted, tile, boards, c.out);
  }

  lemma MoreTilesKeepForm(tiles: seq<seq<Word>>, tile: seq<Word>)
    requires AllWellFormed(tiles) && WellFormed(tile)
    ensures AllWellFormed(tiles + [tile])
  {
    forall i | 0 <= i < |tiles + [tile]|
      ensures WellFormed((tiles + [tile])[i])
    {
      if i < |tiles| {
        assert WellFormed(tiles[i]);
      }
    }
  }

  lemma MoreTilesKeepPlace(tiles: seq<seq<Word>>, tile: seq<Word>, consumer: Consumer, boards: nat, last: seq<Word>)
    requires AtTile(tiles, consumer, boards, last)
    ensures AtTile(tiles + [tile], consumer, boards, last)
  {
    assert forall n | 0 <= n <= |tiles| :: (tiles + [tile])[..n] == tiles[..n];
  }

  lemma MoreTilesKeepFragments(tiles: seq<seq<Word>>, tile: seq<Word>, boards: nat, out: seq<seq<Word>>)
    requires FragmentsAre(tiles, boards, out)
    ensures FragmentsAre(tiles + [tile], boards, out)
  {
    forall k | 0 <= k < |out|
      ensures FragmentIs(tiles + [tile], boards, out[k], k)
    {
      var first := First(k, boards);
      assert FragmentIs(tiles, boards, out[k], k);
      assert (tiles + [tile])[first..first + boards] == tiles[first..first + boards];
    }
  }

  /** The header found behind whole tiles is a tile's, so the size is right and never zero. */
  lemma HeaderIsFound(c: Crate, tiles: seq<seq<Word>>, n: nat)
    requires AllWellFormed(tiles) && n <= |tiles| && c.buffer == Flat(tiles) && Odds(tiles[..n]) <= 1
    requires c.consumer == AtHeader(n, BytesOf(tiles[..n]))
    ensures n < |tiles| ==> |tiles[n]| >= TILE_WORDS
    ensures LookAtHeader(c).consumer ==
            if n < |tiles| then AtBody(n, c.consumer.bytes, PackSize(tiles[n], 0)) else Idle
    ensures LookAtHeader(c) == c.(consumer := LookAtHeader(c).consumer)
  {
    var at := |Flat(tiles[..n])|;
    assert c.consumer.bytes / 2 == at && (c.consumer.bytes + TILE_BYTES) / 2 == at + TILE_WORDS;
    NextTileIsWhole(tiles, n);
    if n < |tiles| {
      assert WellFormed(tiles[n]);
      TileIsThere(tiles, n, at);
    }
  }

  lemma BodyIsFound(c: Crate, tiles: seq<seq<Word>>, n: nat)
    requires AllWellFormed(tiles) && n < |tiles| && c.buffer == Flat(tiles) && Odds(tiles[..n + 1]) <= 1
    requires |tiles[n]| >= TILE_WORDS && c.consumer == AtBody(n, BytesOf(tiles[..n]), PackSize(tiles[n], 0))
    ensures LookAtBody(c) == c.(consumer := AtHeader(n + 1, BytesOf(tiles[..n + 1])))
  {
    assert WellFormed(tiles[n]);
    TileIsThere(tiles, n, |Flat(tiles[..n])|);
  }

  lemma {:induction false} LookKeepsPlace(c: Crate, tiles: seq<seq<Word>>, boards: nat, last: seq<Word>)
    requires AllWellFormed(tiles) && FewOdds(tiles, boards)
    requires c.buffer == Flat(tiles) && AtTile(tiles, c.consumer, boards, last)
    requires c.consumer.AtHeader? || c.consumer.AtBody?
    requires c.consumer.AtHeader? ==> c.consumer.board < boards
    ensures var c' := if c.consumer.AtHeader? then LookAtHeader(c) else LookAtBody(c);
            && AtTile(tiles, c'.consumer, boards, last) && c' == c.(consumer := c'.consumer)
            && (c.consumer.board < |tiles| ==> !c'.consumer.Idle?)
  {
    if c.consumer.AtHeader? {
      FewBefore(tiles, boards, c.consumer.board);
      HeaderIsFound(c, tiles, c.consumer.board);
    } else {
      FewBefore(tiles, boards, c.consumer.board + 1);
      BodyIsFound(c, tiles, c.consumer.board);
    }
  }

  lemma EraseKeepsInv(c: Crate, boards: nat, capacity: nat, consistent: bool)
    requires Inv(c, boards, capacity) && Enabled(c, boards, capacity, Erase(consistent))
    ensures Inv(Do(c, boards, capacity, Erase(consistent)), boards, capacity)
  {
    EraseStartsAtTile(c, boards, c.inserted[First(|c.out| - 1, boards)..]);
    var next := Do(c, boards, capacity, Erase(consistent));
    assert next.inserted == c.inserted && next.out == c.out && Taken(next) == |c.out|;
  }

  lemma {:induction false} EraseStartsAtTile(c: Crate, boards: nat, tiles: seq<seq<Word>>)
    requires c.consumer.Copied? && c.out != [] && First(|c.out| - 1, boards) <= |c.inserted|
    requires tiles == c.inserted[First(|c.out| - 1, boards)..] && c.buffer == Flat(tiles)
    requires AtTile(tiles, c.consumer, boards, c.out[|c.out| - 1])
    ensures First(|c.out|, boards) <= |c.inserted| && c.consumer.bytes / 2 <= |c.buffer|
    ensures c.buffer[c.consumer.bytes / 2..] == Flat(c.inserted[First(|c.out|, boards)..])
  {
    var first := First(|c.out| - 1, boards);
    assert First(|c.out|, boards) == first + boards;
    FlatSplits(tiles, boards);
    assert tiles[boards..] == c.inserted[first + boards..];
  }

  lemma FragmentsGrow(tiles: seq<seq<Word>>, boards: nat, out: seq<seq<Word>>, fragment: seq<Word>)
    requires FragmentsAre(tiles, boards, out) && FragmentIs(tiles, boards, fragment, |out|)
    ensures FragmentsAre(tiles, boards, out + [fragment])
  {
    forall k | 0 <= k < |out + [fragment]|
      ensures FragmentIs(tiles, boards, (out + [fragment])[k], k)
    {
      assert k < |out| ==> FragmentIs(tiles, boards, out[k], k);
    }
  }

  lemma EmitKeepsInv(c: Crate, boards: nat, capacity: nat)
    requires Inv(c, boards, capacity) && Enabled(c, boards, capacity, Emit)
    ensures Inv(Do(c, boards, capacity, Emit), boards, capacity)
  {
    var k := |c.out|;
    var tiles := c.inserted[First(k, boards)..];
    assert GroupFits(c.inserted, boards, k);
    FewBefore(tiles, boards, boards);
    FlatSplits(tiles, boards);
    assert tiles[..boards] == c.inserted[First(k, boards)..First(k, boards) + boards];
    FragmentsGrow(c.inserted, boards, c.out, Flat(tiles[..boards]));
  }

  lemma PlaceKeepsInv(c: Crate, boards: nat, capacity: nat)
    requires Inv(c, boards, capacity) && (c.consumer.AtBody? || (c.consumer.AtHeader? && c.consumer.board < boards))
    ensures Inv(if c.consumer.AtHeader? then LookAtHeader(c) else LookAtBody(c), boards, capacity)
  {
    var tiles := c.inserted[First(Taken(c), boards)..];
    assert GroupFits(c.inserted, boards, Taken(c));
    LookKeepsPlace(c, tiles, boards, if c.out == [] then [] else c.out[|c.out| - 1]);
    var c' := if c.consumer.AtHeader? then LookAtHeader(c) else LookAtBody(c);
    assert Taken(c') == Taken(c);
  }

  lemma {:induction false} SeeCapacityKeepsInv(c: Crate, boards: nat, capacity: nat, tile: seq<Word>)
    requires Inv(c, boards, capacity) && Enabled(c, boards, capacity, SeeCapacity(tile))
    ensures Inv(Do(c, boards, capacity, SeeCapacity(tile)), boards, capacity)
  {
  }

  lemma {:induction false} LookKeepsInv(c: Crate, boards: nat, capacity: nat)
    requires Inv(c, boards, capacity) && Enabled(c, boards, capacity, Look)
    ensures Inv(Do(c, boards, capacity, Look), boards, capacity)
  {
    if c.consumer.Idle? {
      assert c.inserted[First(Taken(c), boards)..][..0] == [];
    } else {
      PlaceKeepsInv(c, boards, capacity);
    }
  }

  lemma {:induction false} StepKeepsInv(c: Crate, boards: nat, capacity: nat, a: Action)
    requires Inv(c, boards, capacity) && Enabled(c, boards, capacity, a)
    requires a.Insert? ==> OddsFit(c.inserted + [c.producer.tile], boards)
    ensures Inv(Do(c, boards, capacity, a), boards, capacity)
  {
    match a
    case SeeCapacity(tile) => SeeCapacityKeepsInv(c, boards, capacity, tile);
    case Insert => InsertKeepsInv(c, boards, capacity);
    case Look => LookKeepsInv(c, boards, capacity);
    case Emit => EmitKeepsInv(c, boards, capacity);
    case Erase(consistent) => EraseKeepsInv(c, boards, capacity, consistent);
  }

  lemma {:induction false} NothingElseInserts(c: Crate, boards: nat, capacity: nat, a: Action)
    requires Enabled(c, boards, capacity, a)
    ensures Do(c, boards, capacity, a).inserted == if a.Insert? then c.inserted + [c.producer.tile] else c.inserted
  {
  }

  lemma {:induction false} RunKeepsInv(states: seq<Crate>, actions: seq<Action>, boards: nat, capacity: nat, i: nat)
    requires Run(states, actions, boards, capacity) && i < |states| && OddsFit(states[i].inserted, boards)
    ensures Inv(states[i], boards, capacity)
  {
    if i == 0 {
      assert First(Taken(START), boards) == 0;
    } else {
      var c, a := states[i - 1], actions[i - 1];
      assert Enabled(c, boards, capacity, a);
      NothingElseInserts(c, boards, capacity, a);
      if a.Insert? {
        OddsFitEarlier(c.inserted, c.producer.tile, boards);
      }
      RunKeepsInv(states, actions, boards, capacity, i - 1);
      StepKeepsInv(c, boards, capacity, a);
    }
  }

  /** The fragments sent so far are the tiles inserted first. */
  lemma {:induction false} FragmentsAreTiles(tiles: seq<seq<Word>>, boards: nat, out: seq<seq<Word>>)
    requires FragmentsAre(tiles, boards, out)
    ensures First(|out|, boards) <= |tiles| && Flat(out) == Flat(tiles[..First(|out|, boards)])
    decreases |out|
  {
    var n := |out|;
    if n == 0 {
      assert First(n, boards) == 0;
    } else {
      FragmentsAreTiles(tiles, boards, out[..n - 1]);
      var first := First(n - 1, boards);
      assert First(n, boards) == first + boards && FragmentIs(tiles, boards, out[n - 1], n - 1);
      FlatNext(out, n - 1);
      assert out[..n] == out;
      FlatJoins(tiles[..first], tiles[first..first + boards]);
      assert tiles[..first + boards] == tiles[..first] + tiles[first..first + boards];
    }
  }

  /** Fragment k is the tiles from number k * boards on, one per board. */
  ghost predicate TilesOfFragment(tiles: seq<seq<Word>>, boards: nat, fragment: seq<Word>, k: nat) {
    k * boards + boards <= |tiles| && fragment == Flat(tiles[k * boards..k * boards + boards])
  }

  ghost predicate EachIsTiles(tiles: seq<seq<Word>>, boards: nat, out: seq<seq<Word>>) {
    forall k | 0 <= k < |out| :: TilesOfFragment(tiles, boards, out[k], k)
  }

  lemma {:induction false} FragmentsByNumber(tiles: seq<seq<Word>>, boards: nat, out: seq<seq<Word>>)
    requires FragmentsAre(tiles, boards, out)
    ensures EachIsTiles(tiles, boards, out)
  {
    forall k | 0 <= k < |out|
      ensures TilesOfFragment(tiles, boards, out[k], k)
    {
      assert FragmentIs(tiles, boards, out[k], k);
      FirstIsProduct(k, boards);
    }
  }

  /**
   * Main result: over every interleaving, as long as no fragment is to hold two tiles of odd size, the
   * buffer starts at a tile and stays within its capacity, every fragment is the next tile of every
   * board in order, and every word inserted was sent once or is still in the buffer.
   */
  lemma {:induction false} FramingIsRight(states: seq<Crate>, actions: seq<Action>, boards: nat, capacity: nat, i: nat)
    requires Run(states, actions, boards, capacity) && i < |states| && OddsFit(states[i].inserted, boards)
    ensures var c := states[i];
            && |c.buffer| <= capacity && c.consumer != Stopped
            && Taken(c) * boards <= |c.inserted| && c.buffer == Flat(c.inserted[Taken(c) * boards..])
            && EachIsTiles(c.inserted, boards, c.out)
            && (!c.consumer.Copied? ==> Flat(c.inserted) == Flat(c.out) + c.buffer)
  {
    RunKeepsInv(states, actions, boards, capacity, i);
    var c := states[i];
    FirstIsProduct(Taken(c), boards);
    FragmentsByNumber(c.inserted, boards, c.out);
    if !c.consumer.Copied? {
      FragmentsAreTiles(c.inserted, boards, c.out);
      FlatSplits(c.inserted, First(|c.out|, boards));
    }
  }

  /** A step that only looks changes no data; once the tiles of all boards are there, no look ends the scan. */
  lemma {:induction false} LookingIsHarmless(states: seq<Crate>, actions: seq<Action>, boards: nat, capacity: nat,
                                             i: nat)
    requires Run(states, actions, boards, capacity) && i < |actions| && actions[i] == Look
    requires OddsFit(states[i].inserted, boards)
    ensures var c, c' := states[i], states[i + 1];
            && c' == c.(consumer := c'.consumer)
            && (boards > 0 && |c.inserted| >= First(|c.out| + 1, boards) ==> !c'.consumer.Idle?)
  {
    RunKeepsInv(states, actions, boards, capacity, i);
    assert Enabled(states[i], boards, capacity, actions[i]);
    var c := states[i];
    var tiles := c.inserted[First(Taken(c), boards)..];
    assert First(|c.out| + 1, boards) == First(|c.out|, boards) + boards;
    if c.consumer.Idle? {
      if tiles != [] {
        assert WellFormed(c.inserted[First(Taken(c), boards)]);
        assert Flat(tiles) == tiles[0] + Flat(tiles[1..]);
      }
    } else {
      assert GroupFits(c.inserted, boards, Taken(c));
      LookKeepsPlace(c, tiles, boards, if c.out == [] then [] else c.out[|c.out| - 1]);
    }
  }

  // ---------------------------------------------------------------------------------
  // Waiting for room
  // ---------------------------------------------------------------------------------

  predicate CanFollow(c: Crate, boards: nat, capacity: nat, actions: seq<Action>)
    decreases |actions|
  {
    actions == [] ||
    (Enabled(c, boards, capacity, actions[0])
     && CanFollow(Do(c, boards, capacity, actions[0]), boards, capacity, actions[1..]))
  }

  function Follow(c: Crate, boards: nat, capacity: nat, actions: seq<Action>): Crate
    requires CanFollow(c, boards, capacity, actions)
    decreases |actions|
  {
    if actions == [] then c else Follow(Do(c, boards, capacity, actions[0]), boards, capacity, actions[1..])
  }

  predicate OfConsumer(a: Action) {
    a.Look? || a.Emit? || a.Erase?
  }

  predicate ConsumerOnly(actions: seq<Action>) {
    forall a | a in actions :: OfConsumer(a)
  }

  /** The consumer alone comes to a state in which the waiting producer finds room for its tile. */
  ghost predicate RoomComes(c: Crate, boards: nat, capacity: nat, tile: seq<Word>) {
    exists actions :: ConsumerOnly(actions) && CanFollow(c, boards, capacity, actions)
                      && Enabled(Follow(c, boards, capacity, actions), boards, capacity, SeeCapacity(tile))
  }

  /** How many fragments a number of tiles makes. */
  function Fragments(tiles: nat, boards: nat): nat
    requires boards > 0
  {
    if tiles < boards then 0 else 1 + Fragments(tiles - boards, boards)
  }

  lemma {:induction false} FragmentsAreWhole(tiles: nat, boards: nat, k: nat)
    requires boards > 0
    ensures First(k, boards) <= tiles <==> k <= Fragments(tiles, boards)
    decreases k
  {
    if k > 0 && tiles >= boards {
      FragmentsAreWhole(tiles - boards, boards, k - 1);
    }
  }

  /** The tiles of the fragment that is not complete yet. */
  function Unfinished(inserted: seq<seq<Word>>, boards: nat): seq<seq<Word>>
    requires boards > 0
  {
    FragmentsAreWhole(|inserted|, boards, Fragments(|inserted|, boards));
    inserted[First(Fragments(|inserted|, boards), boards)..]
  }

  lemma {:induction false} ConsumerKeeps(c: Crate, boards: nat, capacity: nat, actions: seq<Action>)
    requires Inv(c, boards, capacity) && ConsumerOnly(actions) && CanFollow(c, boards, capacity, actions)
    ensures Inv(Follow(c, boards, capacity, actions), boards, capacity)
    ensures Follow(c, boards, capacity, actions).inserted == c.inserted
    decreases |actions|
  {
    if actions != [] {
      assert actions[0] in actions;
      StepKeepsInv(c, boards, capacity, actions[0]);
      NothingElseInserts(c, boards, capacity, actions[0]);
      ConsumerKeeps(Do(c, boards, capacity, actions[0]), boards, capacity, actions[1..]);
    }
  }

  /** The tiles of an incomplete fragment stay in the buffer. */
  lemma {:induction false} UnfinishedStays(c: Crate, boards: nat, capacity: nat)
    requires Inv(c, boards, capacity) && boards > 0
    ensures Taken(c) <= Fragments(|c.inserted|, boards)
    ensures |Flat(Unfinished(c.inserted, boards))| <= |c.buffer|
    ensures Taken(c) == Fragments(|c.inserted|, boards) ==> c.buffer == Flat(Unfinished(c.inserted, boards))
  {
    var k := Fragments(|c.inserted|, boards);
    FragmentsAreWhole(|c.inserted|, boards, Taken(c));
    FragmentsAreWhole(|c.inserted|, boards, k);
    var tiles := c.inserted[First(Taken(c), boards)..];
    FirstGrows(Taken(c), k, boards);
    var n := First(k, boards) - First(Taken(c), boards);
    FlatSplits(tiles, n);
    assert tiles[n..] == Unfinished(c.inserted, boards);
  }

  lemma {:induction false} FirstGrows(j: nat, k: nat, boards: nat)
    requires j <= k
    ensures First(j, boards) <= First(k, boards)
  {
    if j < k {
      FirstGrows(j, k - 1, boards);
    }
  }

  /** What the consumer has to do until it has taken out a fragment. */
  function Steps(consumer: Consumer, boards: nat): nat {
    match consumer
    case Idle => 2 * boards + 3
    case AtHeader(board, _) => if board <= boards then 2 * (boards - board) + 2 else 0
    case AtBody(board, _, _) => if board <= boards then 2 * (boards - board) + 1 else 0
    case Copied(_) => 1
    case Stopped => 0
  }

  function ConsumerStep(c: Crate, boards: nat): Action {
    match c.consumer
    case AtHeader(board, _) => if board < boards then Look else Emit
    case Copied(_) => Erase(true)
    case _ => Look
  }

  /** With the tiles of the next fragment there, the consumer gets on with taking it out. */
  lemma {:induction false} ConsumerStepHelps(c: Crate, boards: nat, capacity: nat)
    requires Inv(c, boards, capacity) && boards > 0 && Taken(c) < Fragments(|c.inserted|, boards)
    ensures Enabled(c, boards, capacity, ConsumerStep(c, boards))
    ensures var next := Do(c, boards, capacity, ConsumerStep(c, boards));
            && next.producer == c.producer
            && (if c.consumer.Copied? then Taken(next) == Taken(c) + 1
                else Taken(next) == Taken(c) && Steps(next.consumer, boards) < Steps(c.consumer, boards))
  {
    var tiles := c.inserted[First(Taken(c), boards)..];
    FragmentsAreWhole(|c.inserted|, boards, Taken(c) + 1);
    assert |tiles| >= boards;
    if c.consumer.Copied? {
      EraseStartsAtTile(c, boards, tiles);
    } else if c.consumer.Idle? {
      assert WellFormed(c.inserted[First(Taken(c), boards)]);
      assert Flat(tiles) == tiles[0] + Flat(tiles[1..]);
    } else if c.consumer.AtHeader? && c.consumer.board == boards {
      assert GroupFits(c.inserted, boards, Taken(c));
      FewBefore(tiles, boards, boards);
      EmitIsEnabled(c, boards, tiles);
    } else {
      assert GroupFits(c.inserted, boards, Taken(c));
      LookKeepsPlace(c, tiles, boards, if c.out == [] then [] else c.out[|c.out| - 1]);
      LookGoesOn(c, boards);
    }
  }

  lemma {:induction false} EmitIsEnabled(c: Crate, boards: nat, tiles: seq<seq<Word>>)
    requires c.consumer.AtHeader? && c.consumer.board == boards <= |tiles|
    requires c.consumer.bytes == BytesOf(tiles[..boards])
    requires c.buffer == Flat(tiles) && Odds(tiles[..boards]) <= 1
    ensures c.consumer.bytes / 2 <= |c.buffer|
  {
    PlaceOf(tiles, boards);
  }

  lemma {:induction false} LookGoesOn(c: Crate, boards: nat)
    requires c.consumer.AtBody? || c.consumer.AtHeader?
    requires c.consumer.board < boards
    requires !(if c.consumer.AtHeader? then LookAtHeader(c) else LookAtBody(c)).consumer.Idle?
    ensures var next := if c.consumer.AtHeader? then LookAtHeader(c) else LookAtBody(c);
            Steps(next.consumer, boards) < Steps(c.consumer, boards) && next.producer == c.producer
  {
  }

  /** The consumer alone can take out all complete fragments. */
  lemma {:induction false} FragmentsLeave(c: Crate, boards: nat, capacity: nat) returns (actions: seq<Action>)
    requires Inv(c, boards, capacity) && boards > 0
    ensures ConsumerOnly(actions) && CanFollow(c, boards, capacity, actions)
    ensures Follow(c, boards, capacity, actions).buffer == Flat(Unfinished(c.inserted, boards))
    ensures Follow(c, boards, capacity, actions).producer == c.producer
    decreases Fragments(|c.inserted|, boards) - Taken(c), Steps(c.consumer, boards)
  {
    actions := [];
    UnfinishedStays(c, boards, capacity);
    if Taken(c) < Fragments(|c.inserted|, boards) {
      var a := ConsumerStep(c, boards);
      ConsumerStepHelps(c, boards, capacity);
      StepKeepsInv(c, boards, capacity, a);
      NothingElseInserts(c, boards, capacity, a);
      var rest := FragmentsLeave(Do(c, boards, capacity, a), boards, capacity);
      actions := [a] + rest;
      assert actions[1..] == rest;
    }
  }

  /**
   * In every reachable state, a waiting producer is given room by the consumer exactly when its tile and the
   * tiles already there of the fragment that is not complete yet fit the buffer together: otherwise both
   * threads wait for ever.
   */
  lemma {:induction false} RoomComesIfItFits(states: seq<Crate>, actions: seq<Action>, boards: nat, capacity: nat,
                                             i: nat, tile: seq<Word>)
    requires Run(states, actions, boards, capacity) && i < |states| && OddsFit(states[i].inserted, boards)
    requires boards > 0 && states[i].producer.Waiting? && WellFormed(tile)
    ensures RoomComes(states[i], boards, capacity, tile) <==>
            |Flat(Unfinished(states[i].inserted, boards))| + |tile| <= capacity
  {
    RunKeepsInv(states, actions, boards, capacity, i);
    var c := states[i];
    if |Flat(Unfinished(c.inserted, boards))| + |tile| <= capacity {
      var leaving := FragmentsLeave(c, boards, capacity);
      assert Enabled(Follow(c, boards, capacity, leaving), boards, capacity, SeeCapacity(tile));
    }
    if RoomComes(c, boards, capacity, tile) {
      var taking :| ConsumerOnly(taking) && CanFollow(c, boards, capacity, taking)
                    && Enabled(Follow(c, boards, capacity, taking), boards, capacity, SeeCapacity(tile));
      ConsumerKeeps(c, boards, capacity, taking);
      UnfinishedStays(Follow(c, boards, capacity, taking), boards, capacity);
    }
  }

  predicate FitsBehind(tiles: seq<seq<Word>>, capacity: nat, j: nat)
    requires j < |tiles|
  {
    |Flat(tiles[..j])| + |tiles[j]| <= capacity
  }

  /** So no tile of a fragment waits for ever exactly when the fragment's tiles fit the buffer together. */
  lemma {:induction false} FragmentFits(tiles: seq<seq<Word>>, capacity: nat)
    ensures (forall j | 0 <= j < |tiles| :: FitsBehind(tiles, capacity, j)) <==> |Flat(tiles)| <= capacity
  {
    forall j | 0 <= j < |tiles|
      ensures |Flat(tiles)| <= capacity ==> FitsBehind(tiles, capacity, j)
    {
      FlatNext(tiles, j);
      FlatSplits(tiles, j + 1);
    }
    if tiles != [] && forall j | 0 <= j < |tiles| :: FitsBehind(tiles, capacity, j) {
      var last := |tiles| - 1;
      assert FitsBehind(tiles, capacity, last);
      FlatNext(tiles, last);
      assert tiles[..last + 1] == tiles;
    }
  }

  /** The bytes getNext_ decides to send, or why it does not. */
  datatype Scan = Send(bytes: nat) | Short | ZeroSize

  function ScanFrom(words: seq<Word>, boards: nat, bytes: nat): Scan
    decreases boards
  {
    if boards == 0 then Send(bytes)
    else if |words| < (bytes + TILE_BYTES) / 2 then Short
    else
      var size := PackSize(words, bytes / 2);
      if size == 0 then ZeroSize
      else if |words| < (bytes + size) / 2 then Short
      else ScanFrom(words, boards - 1, bytes + size)
  }

  /** A header found after `from` bytes moves the scan on to `to` bytes. */
  predicate Passes(words: seq<Word>, from: nat, to: nat) {
    (from + TILE_BYTES) / 2 <= |words| && from < to == from + PackSize(words, from / 2)
  }

  predicate PassesAt(words: seq<Word>, marks: seq<nat>, i: nat)
    requires i + 1 < |marks|
  {
    Passes(words, marks[i], marks[i + 1])
  }

  lemma {:induction false} ScanMovesOn(words: seq<Word>, boards: nat, from: nat, to: nat)
    requires boards > 0 && Passes(words, from, to)
    ensures ScanFrom(words, boards, from) == if |words| < to / 2 then Short else ScanFrom(words, boards - 1, to)
  {
  }

  predicate ReachesAt(words: seq<Word>, marks: seq<nat>, i: nat)
    requires i + 1 < |marks|
  {
    PassesAt(words, marks, i) && marks[i + 1] / 2 <= |words|
  }

  predicate ReachesAll(words: seq<Word>, marks: seq<nat>) {
    forall i {:trigger ReachesAt(words, marks, i)} | 0 <= i < |marks| - 1 :: ReachesAt(words, marks, i)
  }

  /** Headers found at all marks, with the data behind them, bring the scan to the last mark. */
  lemma {:induction false} ScanReaches(words: seq<Word>, boards: nat, marks: seq<nat>)
    requires 0 < |marks| <= boards + 1 && ReachesAll(words, marks)
    ensures ScanFrom(words, boards, marks[0]) == ScanFrom(words, boards - (|marks| - 1), marks[|marks| - 1])
    decreases |marks|
  {
    if |marks| > 1 {
      var rest, first, second, last := marks[1..], marks[0], marks[1], marks[|marks| - 1];
      var left := boards - (|marks| - 1);
      assert rest[0] == second && rest[|rest| - 1] == last;
      assert ScanFrom(words, boards - 1, second) == ScanFrom(words, left, last) by {
        ReachesRest(words, marks);
        ScanReaches(words, boards - 1, rest);
      }
      assert ScanFrom(words, boards, first) == ScanFrom(words, boards - 1, second) by {
        assert ReachesAt(words, marks, 0);
        ScanMovesOn(words, boards, first, second);
      }
    }
  }

  lemma {:induction false} ReachesRest(words: seq<Word>, marks: seq<nat>)
    requires marks != [] && ReachesAll(words, marks)
    ensures ReachesAll(words, marks[1..])
  {
    forall i | 0 <= i < |marks[1..]| - 1
      ensures ReachesAt(words, marks[1..], i)
    {
      assert ReachesAt(words, marks, i + 1);
    }
  }

  /** The bytes after which a scan that sends finds the headers, and those it sends. */
  ghost predicate IsScan(words: seq<Word>, boards: nat, marks: seq<nat>) {
    |marks| == boards + 1 && marks[0] == 0 && ReachesAll(words, marks)
  }

  lemma {:induction false} SentIsScan(words: seq<Word>, boards: nat, from: nat) returns (marks: seq<nat>)
    requires ScanFrom(words, boards, from).Send?
    ensures |marks| == boards + 1 && marks[0] == from && ReachesAll(words, marks)
    decreases boards
  {
    marks := [from];
    if boards > 0 {
      var to := from + PackSize(words, from / 2);
      var rest := SentIsScan(words, boards - 1, to);
      marks := [from] + rest;
      forall i | 0 <= i < |marks| - 1
        ensures ReachesAt(words, marks, i)
      {
        assert i > 0 ==> ReachesAt(words, rest, i - 1);
      }
    }
  }

  /** A scan sends exactly when there are such marks, and what the last one says. */
  lemma {:induction false} ScanIsSent(words: seq<Word>, boards: nat, bytes: nat)
    ensures ScanFrom(words, boards, 0) == Send(bytes) <==>
            exists marks :: IsScan(words, boards, marks) && marks[boards] == bytes
  {
    if ScanFrom(words, boards, 0) == Send(bytes) {
      var marks := SentIsScan(words, boards, 0);
      assert IsScan(words, boards, marks);
      ScanReaches(words, boards, marks);
    }
    if marks :| IsScan(words, boards, marks) && marks[boards] == bytes {
      ScanReaches(words, boards, marks);
    }
  }

  predicate MarksAt(marks: seq<nat>, starts: seq<nat>, i: nat)
    requires i < |marks| == |starts|
  {
    marks[i] / 2 == starts[i]
  }

  predicate MarksMeet(marks: seq<nat>, starts: seq<nat>)
    requires |marks| == |starts|
  {
    forall i | 0 <= i < |marks| :: MarksAt(marks, starts, i)
  }

  /** Where the tiles truly begin, and where the last of them ends. */
  function Starts(tiles: seq<seq<Word>>, boards: nat): (places: seq<nat>)
    requires boards <= |tiles|
  {
    seq(boards + 1, i requires 0 <= i <= boards => |Flat(tiles[..i])|)
  }

  function Marks(tiles: seq<seq<Word>>, boards: nat): (marks: seq<nat>)
    requires boards <= |tiles|
  {
    seq(boards + 1, i requires 0 <= i <= boards => BytesOf(tiles[..i]))
  }

  lemma {:induction false} PlaceOf(tiles: seq<seq<Word>>, n: nat)
    requires n <= |tiles|
    ensures BytesOf(tiles[..n]) / 2 == |Flat(tiles[..n])| <==> Odds(tiles[..n]) <= 1
    ensures Odds(tiles[..n]) <= 1 ==> (BytesOf(tiles[..n]) + TILE_BYTES) / 2 == |Flat(tiles[..n])| + TILE_WORDS
    ensures |Flat(tiles[..n])| <= |Flat(tiles)|
  {
    FlatSplits(tiles, n);
  }

  /** A tile found at its place has its header there. */
  lemma {:induction false} TilePasses(tiles: seq<seq<Word>>, n: nat)
    requires AllWellFormed(tiles) && n < |tiles| && Odds(tiles[..n]) <= 1
    ensures Passes(Flat(tiles), BytesOf(tiles[..n]), BytesOf(tiles[..n + 1]))
  {
    assert WellFormed(tiles[n]);
    TileIsThere(tiles, n, |Flat(tiles[..n])|);
    PlaceOf(tiles, n);
  }

  /** A scan that finds every board's tile at its own place, and ends where the last one does. */
  ghost predicate TilesFound(tiles: seq<seq<Word>>, boards: nat)
    requires boards <= |tiles|
  {
    exists marks :: IsScan(Flat(tiles), boards, marks) && MarksMeet(marks, Starts(tiles, boards))
  }

  /** The scan finds every board's tile at its own place exactly when at most one of them is of odd size. */
  lemma {:induction false} TilesAreFound(tiles: seq<seq<Word>>, boards: nat)
    requires AllWellFormed(tiles) && boards <= |tiles|
    ensures TilesFound(tiles, boards) <==> Odds(tiles[..boards]) <= 1
  {
    if Odds(tiles[..boards]) <= 1 {
      MarksOfTiles(tiles, boards);
      forall i | 0 <= i <= boards
        ensures MarksAt(Marks(tiles, boards), Starts(tiles, boards), i)
      {
        OddsGrow(tiles, i, boards);
        PlaceOf(tiles, i);
      }
      assert IsScan(Flat(tiles), boards, Marks(tiles, boards));
    }
    if TilesFound(tiles, boards) {
      var marks :| IsScan(Flat(tiles), boards, marks) && MarksMeet(marks, Starts(tiles, boards));
      FoundMarks(tiles, boards, marks, boards);
      assert MarksAt(marks, Starts(tiles, boards), boards);
      PlaceOf(tiles, boards);
    }
  }

  lemma {:induction false} MarksOfTiles(tiles: seq<seq<Word>>, n: nat)
    requires AllWellFormed(tiles) && n <= |tiles| && Odds(tiles[..n]) <= 1
    ensures IsScan(Flat(tiles), n, Marks(tiles, n))
  {
    var marks := Marks(tiles, n);
    assert tiles[..0] == [] && marks[0] == 0;
    forall i | 0 <= i < |marks| - 1
      ensures ReachesAt(Flat(tiles), marks, i)
    {
      OddsGrow(tiles, i, n);
      OddsGrow(tiles, i + 1, n);
      TilePasses(tiles, i);
      PlaceOf(tiles, i + 1);
    }
  }

  /** The marks of a scan that finds the tiles are the sums of their sizes. */
  lemma {:induction false} FoundMarks(tiles: seq<seq<Word>>, boards: nat, marks: seq<nat>, n: nat)
    requires AllWellFormed(tiles) && n <= boards <= |tiles|
    requires IsScan(Flat(tiles), boards, marks) && MarksMeet(marks, Starts(tiles, boards))
    ensures marks[n] == BytesOf(tiles[..n])
  {
    if n == 0 {
      assert tiles[..0] == [];
    } else {
      var k := n - 1;
      FoundMarks(tiles, boards, marks, k);
      assert MarksAt(marks, Starts(tiles, boards), k) && ReachesAt(Flat(tiles), marks, k);
      PlaceOf(tiles, k);
      TilePasses(tiles, k);
    }
  }

  /** The scan passes over tiles of which at most one is of odd size. */
  lemma {:induction false} ScanPassesTiles(tiles: seq<seq<Word>>, boards: nat, n: nat)
    requires AllWellFormed(tiles) && n <= |tiles| && n <= boards && Odds(tiles[..n]) <= 1
    ensures ScanFrom(Flat(tiles), boards, 0) == ScanFrom(Flat(tiles), boards - n, BytesOf(tiles[..n]))
  {
    MarksOfTiles(tiles, n);
    ScanReaches(Flat(tiles), boards, Marks(tiles, n));
  }

  /** With nobody inserting meanwhile, a scan sends the next tile of every board exactly when they are all there. */
  lemma {:induction false} ScanOfTiles(tiles: seq<seq<Word>>, boards: nat)
    requires AllWellFormed(tiles) && FewOdds(tiles, boards)
    ensures ScanFrom(Flat(tiles), boards, 0)
            == if boards <= |tiles| then Send(BytesOf(tiles[..boards])) else Short
    ensures boards <= |tiles| ==> BytesOf(tiles[..boards]) / 2 == |Flat(tiles[..boards])|
  {
    var n := if boards < |tiles| then boards else |tiles|;
    ScanPassesTiles(tiles, boards, n);
    PlaceOf(tiles, n);
    assert n == |tiles| ==> tiles[..n] == tiles;
  }

  /** A second tile of odd size puts the scan one word behind its end. */
  lemma {:induction false} SecondOddIsPassed(tiles: seq<seq<Word>>, n: nat)
    requires n < |tiles| && Odds(tiles[..n]) <= 1 < Odds(tiles[..n + 1])
    ensures BytesOf(tiles[..n + 1]) / 2 == |Flat(tiles[..n + 1])| + 1
  {
    OddsNext(tiles, n);
  }

  /** What is sent is the tiles of the boards. */
  predicate SendsTiles(tiles: seq<seq<Word>>, boards: nat)
    requires boards <= |tiles|
  {
    var scan := ScanFrom(Flat(tiles), boards, 0);
    scan.Send? && scan.bytes / 2 == |Flat(tiles[..boards])|
  }

  /**
   * When the tiles before the last board's have at most one of odd size, as they always have on two
   * boards, what is sent is the boards' tiles exactly when those of all boards have; with a second one of
   * odd size it has a word of the next tile.
   */
  lemma {:induction false} OddTilesAreMisframed(tiles: seq<seq<Word>>, boards: nat)
    requires AllWellFormed(tiles) && 0 < boards <= |tiles| && Odds(tiles[..boards - 1]) <= 1
    ensures SendsTiles(tiles, boards) <==> Odds(tiles[..boards]) <= 1
    ensures var scan := ScanFrom(Flat(tiles), boards, 0);
            scan.Send? && Odds(tiles[..boards]) > 1 ==> scan.bytes / 2 == |Flat(tiles[..boards])| + 1
  {
    var n := boards - 1;
    ScanPassesTiles(tiles, boards, n);
    TilePasses(tiles, n);
    ScanMovesOn(Flat(tiles), 1, BytesOf(tiles[..n]), BytesOf(tiles[..boards]));
    PlaceOf(tiles, boards);
    if Odds(tiles[..boards]) > 1 {
      SecondOddIsPassed(tiles, n);
    }
  }

  /**
   * On more boards the words may come out right all the same: the size read one word off in the third
   * of these tiles makes up for the two odd ones.
   */
  lemma {:induction false} WrongHeaderCanAddUp(a: seq<Word>, b: seq<Word>, c: seq<Word>)
    requires |a| == |b| == 17 && PackSize(a, 0) == PackSize(b, 0) == 35
    requires |c| == 0x8000 && PackSize(c, 0) == 0x1_0000 && c[14] == 0xFEFF
    ensures Odds([a, b, c]) == 2 && SendsTiles([a, b, c], 3)
  {
    var words := a + b + c;
    FlatOfThree(a, b, c);
    assert words[0..17] == a && words[17..34] == b && words[34..34 + |c|] == c;
    PackSizeOfTile(words, 0, a);
    PackSizeOfTile(words, 17, b);
    assert words[35 + 12] == c[13] && words[35 + 13] == c[14];
    assert PackSize(words, 35) == 0xFFFE;
    assert ScanFrom(words, 1, 70) == Send(70 + 0xFFFE);
    assert ScanFrom(words, 2, 35) == ScanFrom(words, 1, 70);
    assert [a, b, c][..3] == [a, b, c];
  }

  lemma {:induction false} FlatOfThree(a: seq<Word>, b: seq<Word>, c: seq<Word>)
    ensures Flat([a, b, c]) == a + b + c
    ensures Odds([a, b, c]) == (if IsOdd(a) then 1 else 0) + (if IsOdd(b) then 1 else 0) + if IsOdd(c) then 1 else 0
  {
    var one, two := [c], [b, c];
    FlatOne(c);
    assert one[1..] == [] && two[1..] == one && [a, b, c][1..] == two;
    assert Odds(one) == (if IsOdd(c) then 1 else 0) + Odds(one[1..]);
    assert Flat(two) == b + c && Odds(two) == (if IsOdd(b) then 1 else 0) + Odds(one);
  }

  class CircularBuffer {
    const capacity: nat
    var buffer: seq<Word>

    constructor (capacity: nat)
      ensures this.capacity == capacity && buffer == []
    {
      this.capacity, buffer := capacity, [];
    }

    /** The insertion itself; the caller has waited for room. */
    method Insert(data: seq<Word>) returns (size: nat)
      requires |data| <= capacity - |buffer|
      modifies this
      ensures buffer == old(buffer) + data && size == |buffer| <= capacity
    {
      buffer := buffer + data;
      size := |buffer|;
    }

    method EraseBegin(n: nat) returns (size: nat)
      requires n <= |buffer|
      modifies this
      ensures buffer == old(buffer)[n..] && size == |buffer|
    {
      buffer := buffer[n..];
      size := |buffer|;
    }
  }

  /** A tile as the crate hands it over: memory for its header and for as much as its packSize says. */
  predicate Readable(tile: seq<Word>) {
    |tile| >= TILE_WORDS && PackSize(tile, 0) / 2 <= |tile|
  }

  predicate AllReadable(tiles: seq<seq<Word>>) {
    forall i {:trigger Readable(tiles[i])} | 0 <= i < |tiles| :: Readable(tiles[i])
  }

  /** What GetData inserts of a tile: nothing of a bare header. */
  function TileWords(tile: seq<Word>): seq<Word>
    requires Readable(tile)
  {
    if PackSize(tile, 0) == TILE_BYTES then [] else tile[..PackSize(tile, 0) / 2]
  }

  function TileBytes(tile: seq<Word>): nat
    requires Readable(tile)
  {
    if PackSize(tile, 0) == TILE_BYTES then 0 else PackSize(tile, 0)
  }

  function AllWords(tiles: seq<seq<Word>>): seq<Word>
    requires AllReadable(tiles)
  {
    if tiles == [] then []
    else
      var n := |tiles| - 1;
      assert Readable(tiles[n]) && AllReadable(tiles[..n]);
      AllWords(tiles[..n]) + TileWords(tiles[n])
  }

  function AllBytes(tiles: seq<seq<Word>>): nat
    requires AllReadable(tiles)
  {
    if tiles == [] then 0
    else
      var n := |tiles| - 1;
      assert Readable(tiles[n]) && AllReadable(tiles[..n]);
      AllBytes(tiles[..n]) + TileBytes(tiles[n])
  }

  class PhysCrateGenerator {
    const boards: nat
    const circularBuffer: CircularBuffer
    var packSizeZeroCounter: nat
    var eventOffset: nat

    constructor (boards: nat, circularBuffer: CircularBuffer)
      ensures this.boards == boards && this.circularBuffer == circularBuffer
      ensures packSizeZeroCounter == 0 && eventOffset == 0
    {
      this.boards, this.circularBuffer, packSizeZeroCounter, eventOffset := boards, circularBuffer, 0, 0;
    }

    /** GetData on the tiles waiting in the crate, when there is room for them all. */
    method GetData(tiles: seq<seq<Word>>) returns (dataSizeBytes: nat)
      requires AllReadable(tiles)
      requires |circularBuffer.buffer| + |AllWords(tiles)| <= circularBuffer.capacity
      modifies circularBuffer
      ensures circularBuffer.buffer == old(circularBuffer.buffer) + AllWords(tiles)
      ensures dataSizeBytes == AllBytes(tiles)
    {
      dataSizeBytes := 0;
      ghost var before := circularBuffer.buffer;
      for i := 0 to |tiles|
        invariant circularBuffer.buffer == before + AllWords(tiles[..i])
        invariant dataSizeBytes == AllBytes(tiles[..i])
      {
        dataSizeBytes := InsertNext(tiles, i, dataSizeBytes, before);
      }
      assert tiles[..|tiles|] == tiles;
    }

    method InsertNext(tiles: seq<seq<Word>>, i: nat, dataSizeBytes: nat, ghost before: seq<Word>) returns (total: nat)
      requires AllReadable(tiles) && i < |tiles|
      requires circularBuffer.buffer == before + AllWords(tiles[..i]) && dataSizeBytes == AllBytes(tiles[..i])
      requires |before| + |AllWords(tiles)| <= circularBuffer.capacity
      modifies circularBuffer
      ensures circularBuffer.buffer == before + AllWords(tiles[..i + 1]) && total == AllBytes(tiles[..i + 1])
    {
      assert Readable(tiles[i]);
      NextTile(tiles, i);
      Associate(before, AllWords(tiles[..i]), TileWords(tiles[i]));
      var added := InsertTile(tiles[i]);
      total := dataSizeBytes + added;
    }

    /** One turn of the loop of GetData. */
    method InsertTile(tile: seq<Word>) returns (added: nat)
      requires Readable(tile) && |TileWords(tile)| <= circularBuffer.capacity - |circularBuffer.buffer|
      modifies circularBuffer
      ensures added == TileBytes(tile) && circularBuffer.buffer == old(circularBuffer.buffer) + TileWords(tile)
    {
      var size := PackSize(tile, 0);
      if size == TILE_BYTES {
        return 0;
      }
      var _ := circularBuffer.Insert(tile[..size / 2]);
      added := size;
    }

    /** The scan of getNext_, with nobody inserting meanwhile: what it finds, and the count of empty tiles. */
    method ScanTiles() returns (scan: Scan, more: bool)
      modifies `packSizeZeroCounter
      ensures scan == FirstScan(circularBuffer.buffer, boards)
      ensures scan.Send? ==> scan.bytes / 2 <= |circularBuffer.buffer|
      ensures more <==> !(scan.ZeroSize? && old(packSizeZeroCounter) == 10)
      ensures packSizeZeroCounter == old(packSizeZeroCounter) + if scan.ZeroSize? && more then 1 else 0
    {
      if |circularBuffer.buffer| <= TILE_WORDS {
        return Short, true;
      }
      var words := circularBuffer.buffer;
      var board, bytes := 0, 0;
      while board < boards
        invariant board <= boards && 0 <= bytes && bytes / 2 <= |words|
        invariant circularBuffer.buffer == words && packSizeZeroCounter == old(packSizeZeroCounter)
        invariant ScanFrom(words, boards, 0) == ScanFrom(words, boards - board, bytes)
      {
        if |words| < (bytes + TILE_BYTES) / 2 {
          return Short, true;
        }
        var size := PackSize(words, bytes / 2);
        if size == 0 {
          if packSizeZeroCounter == 10 {
            return ZeroSize, false;
          }
          packSizeZeroCounter := packSizeZeroCounter + 1;
          return ZeroSize, true;
        }
        if |words| < (bytes + size) / 2 {
          return Short, true;
        }
        bytes, board := bytes + size, board + 1;
      }
      return Send(bytes), true;
    }

    /**
     * getNext_ with nobody inserting meanwhile. The event number a board reports in a fragment is read by an
     * overlay, here a parameter. A fragment whose boards disagree is taken out all the same, but ends the run.
     */
    method GetNext(shouldStop: bool, eventNumber: (seq<Word>, nat) -> nat)
        returns (fragment: seq<Word>, sequenceId: nat, more: bool)
      modifies this, circularBuffer
      ensures shouldStop ==> !more && circularBuffer.buffer == old(circularBuffer.buffer)
                             && packSizeZeroCounter == old(packSizeZeroCounter) && eventOffset == old(eventOffset)
      ensures !shouldStop && !FirstScan(old(circularBuffer.buffer), boards).Send? ==>
                && fragment == [] && circularBuffer.buffer == old(circularBuffer.buffer)
                && (more <==> FirstScan(old(circularBuffer.buffer), boards).Short? || old(packSizeZeroCounter) != 10)
                && packSizeZeroCounter == old(packSizeZeroCounter)
                   + if FirstScan(old(circularBuffer.buffer), boards).ZeroSize? && more then 1 else 0
      ensures !shouldStop && FirstScan(old(circularBuffer.buffer), boards).Send? ==>
                var bytes := FirstScan(old(circularBuffer.buffer), boards).bytes;
                && bytes / 2 <= |old(circularBuffer.buffer)|
                && fragment == old(circularBuffer.buffer)[..bytes / 2]
                && circularBuffer.buffer == old(circularBuffer.buffer)[bytes / 2..]
                && (more <==> BoardsAgree(fragment, boards, eventNumber))
                && packSizeZeroCounter == (if more then 0 else old(packSizeZeroCounter))
                && (more ==> sequenceId == eventNumber(fragment, 0) + eventOffset)
                && eventOffset == if more && eventNumber(fragment, 0) == 0 then 1 else old(eventOffset)
    {
      fragment, sequenceId, more := [], 0, true;
      if shouldStop {
        more := false;
        return;
      }
      var scan;
      scan, more := ScanTiles();
      if !scan.Send? {
        return;
      }
      fragment := circularBuffer.buffer[..scan.bytes / 2];
      var _ := circularBuffer.EraseBegin(scan.bytes / 2);
      more, sequenceId := CheckBoards(fragment, eventNumber);
      if more {
        packSizeZeroCounter := 0;
      }
    }

    /** The check on the event numbers of a fragment's boards, and the sequence id it allows. */
    method CheckBoards(fragment: seq<Word>, eventNumber: (seq<Word>, nat) -> nat)
        returns (consistent: bool, sequenceId: nat)
      modifies `eventOffset
      ensures consistent <==> BoardsAgree(fragment, boards, eventNumber)
      ensures consistent ==> sequenceId == eventNumber(fragment, 0) + eventOffset
      ensures eventOffset == if consistent && eventNumber(fragment, 0) == 0 then 1 else old(eventOffset)
    {
      var event := eventNumber(fragment, 0);
      consistent, sequenceId := true, 0;
      var board := 1;
      while board < boards
        invariant consistent <==> forall j | 0 <= j < board && j < boards :: eventNumber(fragment, j) == event
      {
        if eventNumber(fragment, board) != event {
          consistent := false;
        }
        board := board + 1;
      }
      if consistent {
        if event == 0 {
          eventOffset := 1;
        }
        sequenceId := event + eventOffset;
      }
    }
  }

  function FirstScan(words: seq<Word>, boards: nat): Scan {
    if |words| <= TILE_WORDS then Short else ScanFrom(words, boards, 0)
  }

  predicate BoardsAgree(fragment: seq<Word>, boards: nat, eventNumber: (seq<Word>, nat) -> nat) {
    forall j | 0 <= j < boards :: eventNumber(fragment, j) == eventNumber(fragment, 0)
  }

  lemma {:induction false} NextTile(tiles: seq<seq<Word>>, i: nat)
    requires AllReadable(tiles) && i < |tiles| && Readable(tiles[i])
    ensures AllWords(tiles[..i + 1]) == AllWords(tiles[..i]) + TileWords(tiles[i])
    ensures AllBytes(tiles[..i + 1]) == AllBytes(tiles[..i]) + TileBytes(tiles[i])
    ensures |AllWords(tiles[..i])| + |TileWords(tiles[i])| <= |AllWords(tiles)|
  {
    assert tiles[..i + 1][..i] == tiles[..i];
    AllWordsGrow(tiles, i + 1);
  }

  lemma {:induction false} AllWordsGrow(tiles: seq<seq<Word>>, i: nat)
    requires AllReadable(tiles) && i <= |tiles|
    ensures |AllWords(tiles[..i])| <= |AllWords(tiles)|
    decreases |tiles|
  {
    var n := |tiles| - 1;
    if i <= n {
      assert AllReadable(tiles[..n]);
      AllWordsGrow(tiles[..n], i);
      assert tiles[..n][..i] == tiles[..i];
    } else {
      assert tiles[..i] == tiles;
    }
  }

  predicate BareHeader(tile: seq<Word>) {
    |tile| == TILE_WORDS && PackSize(tile, 0) == TILE_BYTES
  }

  /** Of tiles as long as their packSize says, what is inserted is whole tiles, as the framing needs. */
  lemma {:induction false} WholeTilesAreInserted(tiles: seq<seq<Word>>) returns (inserted: seq<seq<Word>>)
    requires forall i | 0 <= i < |tiles| :: BareHeader(tiles[i]) || WellFormed(tiles[i])
    ensures AllReadable(tiles) && AllWellFormed(inserted) && Flat(inserted) == AllWords(tiles)
    decreases |tiles|
  {
    inserted := [];
    if tiles != [] {
      var n := |tiles| - 1;
      inserted := WholeTilesAreInserted(tiles[..n]);
      assert Readable(tiles[n]) && tiles[n][..|tiles[n]|] == tiles[n];
      if PackSize(tiles[n], 0) != TILE_BYTES {
        assert WellFormed(tiles[n]);
        MoreTilesKeepForm(inserted, tiles[n]);
        FlatOne(tiles[n]);
        FlatJoins(inserted, [tiles[n]]);
        inserted := inserted + [tiles[n]];
      }
    }
  }
}
