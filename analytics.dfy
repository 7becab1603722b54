/** The figures of src/components/BlockchainAnalytics.tsx: the per-crop
    and per-farmer reductions, the time series, the exported summary and
    the CSV text. Quantities are read with `parseInt(q) || 0`; everything
    built from `parseFloat` (values, prices, average prices) is not part
    of this model. */
module Analytics {
  import opened Text
  import opened Blocks
  import opened JsParse

  /** The field a reduction groups by: `block.crop` for `cropData`,
      `block.farmer` for `farmerData`. */
  datatype GroupKey = ByCrop | ByFarmer

  function KeyOf(b: Block, key: GroupKey): string
  {
    match key
    case ByCrop => b.crop
    case ByFarmer => b.farmer
  }

  /** The two integer figures a group accumulates: one per block (`blocks`
      / `transactions`) or the parsed quantity (`quantity` /
      `totalQuantity`). */
  datatype Measure = PerBlock | Parsed

  /** `parseInt(block.quantity) || 0`. */
  function Quantity(b: Block): int
  {
    ParseIntOrZero(b.quantity)
  }

  function Weight(b: Block, m: Measure): int
  {
    match m
    case PerBlock => 1
    case Parsed => Quantity(b)
  }

  /** Some block of the list has `n` under `key`. */
  predicate Occurs(chain: seq<Block>, key: GroupKey, n: string) {
    exists i :: 0 <= i < |chain| && KeyOf(chain[i], key) == n
  }

  lemma {:induction false} OccursSnoc(chain: seq<Block>, key: GroupKey)
    requires chain != []
    ensures forall n :: Occurs(chain, key, n) <==>
      Occurs(chain[..|chain| - 1], key, n) || KeyOf(chain[|chain| - 1], key) == n
  {
    var p := chain[..|chain| - 1];
    forall n | Occurs(p, key, n) ensures Occurs(chain, key, n) {
      var i :| 0 <= i < |p| && KeyOf(p[i], key) == n;
      assert chain[i] == p[i];
    }
    forall n | Occurs(chain, key, n) && KeyOf(chain[|chain| - 1], key) != n ensures Occurs(p, key, n) {
      var i :| 0 <= i < |chain| && KeyOf(chain[i], key) == n;
      assert p[i] == chain[i];
    }
  }

  /** The group names in the order `Object.values` lists them: each name
      once, at the position of the block that first carried it. */
  function Names(chain: seq<Block>, key: GroupKey): (ns: seq<string>)
    ensures forall i, j :: 0 <= i < j < |ns| ==> ns[i] != ns[j]
    ensures forall n :: n in ns <==> Occurs(chain, key, n)
    ensures |ns| <= |chain|
  {
    if chain == [] then []
    else
      var prev := Names(chain[..|chain| - 1], key);
      var k := KeyOf(chain[|chain| - 1], key);
      OccursSnoc(chain, key);
      if k in prev then prev else prev + [k]
  }

  /** The sum of `m` over the blocks whose `key` is `n`. */
  function SumWith(chain: seq<Block>, key: GroupKey, n: string, m: Measure): int
  {
    if chain == [] then 0
    else
      var last := chain[|chain| - 1];
      SumWith(chain[..|chain| - 1], key, n, m) + (if KeyOf(last, key) == n then Weight(last, m) else 0)
  }

  /** The sum of `m` over all blocks. */
  function Total(chain: seq<Block>, m: Measure): int
  {
    if chain == [] then 0 else Total(chain[..|chain| - 1], m) + Weight(chain[|chain| - 1], m)
  }

  /** One entry of `cropArray` or `farmerArray` (without the floating
      point `value` and `avgPrice`). */
  datatype Tally = Tally(name: string, quantity: int, blocks: int)

  function TallyOf(chain: seq<Block>, key: GroupKey, n: string): (t: Tally)
    ensures t.name == n
  {
    Tally(n, SumWith(chain, key, n, Parsed), SumWith(chain, key, n, PerBlock))
  }

  function TalliesFor(chain: seq<Block>, key: GroupKey, names: seq<string>): (ts: seq<Tally>)
    ensures |ts| == |names|
    ensures forall i :: 0 <= i < |names| ==> ts[i] == TallyOf(chain, key, names[i])
  {
    seq(|names|, i requires 0 <= i < |names| => TallyOf(chain, key, names[i]))
  }

  /** The groups a reduction ends with, in insertion order. */
  function Grouped(chain: seq<Block>, key: GroupKey): seq<Tally>
  {
    TalliesFor(chain, key, Names(chain, key))
  }

  /** The accumulator after the blocks of `done`: its keys are the names
      so far, in `order`, each with its figures over `done`. */
  ghost predicate Accumulated(done: seq<Block>, key: GroupKey, acc: map<string, Tally>, order: seq<string>) {
    && order == Names(done, key)
    && acc.Keys == (set n | n in order)
    && (forall n :: n in acc ==> acc[n] == TallyOf(done, key, n))
  }

  /** `Object.values` of the accumulator, in insertion order. */
  function Listed(acc: map<string, Tally>, order: seq<string>): (ts: seq<Tally>)
    requires forall n :: n in order ==> n in acc
    ensures |ts| == |order| && forall j :: 0 <= j < |order| ==> ts[j] == acc[order[j]]
  {
    seq(|order|, j requires 0 <= j < |order| => acc[order[j]])
  }

  /** The `reduce` over the ledger into a dictionary keyed by crop (or
      farmer), then `Object.values`. A name seen for the first time gets a
      zeroed entry; every block then adds its parsed quantity and one to
      the entry of its name. */
  method GroupBlocks(chain: seq<Block>, key: GroupKey) returns (groups: seq<Tally>)
    ensures groups == Grouped(chain, key)
  {
    var acc: map<string, Tally> := map[];
    var order: seq<string> := [];
    var i := 0;
    while i < |chain|
      invariant 0 <= i <= |chain|
      invariant Accumulated(chain[..i], key, acc, order)
    {
      var b := chain[i];
      var k := KeyOf(b, key);
      ghost var acc0, order0 := acc, order;
      if k !in acc {
        acc := acc[k := Tally(k, 0, 0)];
        order := order + [k];
      }
      acc := acc[k := Bump(acc[k], b)];
      AccumulateStep(chain, key, i, acc0, order0, acc, order);
      i := i + 1;
    }
    assert chain[..|chain|] == chain;
    groups := Listed(acc, order);
    ListedGroups(chain, key, acc, order);
  }

  /** One turn of the callback keeps the accumulator exact. */
  lemma {:induction false} AccumulateStep(chain: seq<Block>, key: GroupKey, i: nat,
                                          acc: map<string, Tally>, order: seq<string>,
                                          acc2: map<string, Tally>, order2: seq<string>)
    requires i < |chain| && Accumulated(chain[..i], key, acc, order)
    requires var k := KeyOf(chain[i], key);
      var start := if k in acc then acc else acc[k := Tally(k, 0, 0)];
      order2 == (if k in acc then order else order + [k]) && acc2 == start[k := Bump(start[k], chain[i])]
    ensures Accumulated(chain[..i + 1], key, acc2, order2)
  {
    var k := KeyOf(chain[i], key);
    NamesStep(chain, key, i);
    KeysStep(acc, order, k, acc2, order2);
    if k !in acc {
      AbsentZero(chain[..i], key, k);
    }
    ValuesStep(chain, key, i, acc, acc2);
  }

  lemma {:induction false} KeysStep(acc: map<string, Tally>, order: seq<string>, k: string,
                                    acc2: map<string, Tally>, order2: seq<string>)
    requires acc.Keys == (set n | n in order)
    requires order2 == (if k in acc then order else order + [k])
    requires acc2.Keys == acc.Keys + {k}
    ensures acc2.Keys == (set n | n in order2)
  {
  }

  lemma {:induction false} ValuesStep(chain: seq<Block>, key: GroupKey, i: nat,
                                      acc: map<string, Tally>, acc2: map<string, Tally>)
    requires i < |chain|
    requires forall n :: n in acc ==> acc[n] == TallyOf(chain[..i], key, n)
    requires var k := KeyOf(chain[i], key);
      var start := if k in acc then acc else acc[k := Tally(k, 0, 0)];
      (k !in acc ==> TallyOf(chain[..i], key, k) == Tally(k, 0, 0)) && acc2 == start[k := Bump(start[k], chain[i])]
    ensures forall n :: n in acc2 ==> acc2[n] == TallyOf(chain[..i + 1], key, n)
  {
    forall n | n in acc2 ensures acc2[n] == TallyOf(chain[..i + 1], key, n) {
      TallyStep(chain, key, i, n);
    }
  }

  lemma {:induction false} ListedGroups(chain: seq<Block>, key: GroupKey, acc: map<string, Tally>, order: seq<string>)
    requires Accumulated(chain, key, acc, order)
    ensures Listed(acc, order) == Grouped(chain, key)
  {
  }

  /** The callback's update of the entry of a block's name: its parsed
      quantity and one block more. */
  function Bump(t: Tally, b: Block): (u: Tally)
    ensures u.name == t.name && u.quantity == t.quantity + Quantity(b) && u.blocks == t.blocks + 1
  {
    Tally(t.name, t.quantity + Quantity(b), t.blocks + 1)
  }

  /** The figures for `n` after block `i`, from those before it. */
  function Next(chain: seq<Block>, key: GroupKey, i: nat, n: string): Tally
    requires i < |chain|
  {
    if n == KeyOf(chain[i], key) then Bump(TallyOf(chain[..i], key, n), chain[i]) else TallyOf(chain[..i], key, n)
  }

  /** One more block appends its name when it is new. */
  lemma {:induction false} NamesStep(chain: seq<Block>, key: GroupKey, i: nat)
    requires i < |chain|
    ensures var k := KeyOf(chain[i], key);
      Names(chain[..i + 1], key) == if k in Names(chain[..i], key) then Names(chain[..i], key) else Names(chain[..i], key) + [k]
  {
    assert chain[..i + 1][..i] == chain[..i];
    assert chain[..i + 1][i] == chain[i];
  }

  /** One more block changes the figures of its own name only. */
  lemma {:induction false} TallyStep(chain: seq<Block>, key: GroupKey, i: nat, n: string)
    requires i < |chain|
    ensures TallyOf(chain[..i + 1], key, n) == Next(chain, key, i, n)
  {
    assert chain[..i + 1][..i] == chain[..i];
    assert chain[..i + 1][i] == chain[i];
  }

  /** A name no block carries has nothing summed under it. */
  lemma {:induction false} AbsentZero(chain: seq<Block>, key: GroupKey, n: string)
    requires !Occurs(chain, key, n)
    ensures SumWith(chain, key, n, Parsed) == 0 && SumWith(chain, key, n, PerBlock) == 0
  {
    if chain != [] {
      OccursSnoc(chain, key);
      AbsentZero(chain[..|chain| - 1], key, n);
    }
  }

  /** A group's `blocks` is the number of blocks carrying its name, so it
      is at least one for every listed group. */
  lemma {:induction false} CountPositive(chain: seq<Block>, key: GroupKey, n: string)
    ensures SumWith(chain, key, n, PerBlock) >= 0
    ensures Occurs(chain, key, n) ==> SumWith(chain, key, n, PerBlock) >= 1
  {
    if chain != [] {
      OccursSnoc(chain, key);
      CountPositive(chain[..|chain| - 1], key, n);
    }
  }

  /** There is exactly one group per distinct name, and each group's
      figures are the count and the parsed sum over the blocks carrying
      that name. */
  lemma {:induction false} GroupsAreDistinctNames(chain: seq<Block>, key: GroupKey)
    ensures forall i, j :: 0 <= i < j < |Grouped(chain, key)| ==> Grouped(chain, key)[i].name != Grouped(chain, key)[j].name
    ensures forall n :: Occurs(chain, key, n) <==> exists i :: 0 <= i < |Grouped(chain, key)| && Grouped(chain, key)[i].name == n
    ensures forall i :: 0 <= i < |Grouped(chain, key)| ==>
      Grouped(chain, key)[i].blocks >= 1 && Grouped(chain, key)[i] == TallyOf(chain, key, Grouped(chain, key)[i].name)
  {
    var ns := Names(chain, key);
    var gs := Grouped(chain, key);
    forall n | Occurs(chain, key, n) ensures exists i :: 0 <= i < |gs| && gs[i].name == n {
      var i :| 0 <= i < |ns| && ns[i] == n;
      assert gs[i].name == n;
    }
    forall i | 0 <= i < |gs| ensures gs[i].blocks >= 1 {
      assert ns[i] in ns;
      CountPositive(chain, key, ns[i]);
    }
  }

  /** The sum of `m` over the groups for `names`. */
  function Spread(chain: seq<Block>, key: GroupKey, names: seq<string>, m: Measure): int
  {
    if names == [] then 0
    else Spread(chain, key, names[..|names| - 1], m) + SumWith(chain, key, names[|names| - 1], m)
  }

  /** One more block adds its weight to the spread once when its name is
      among the (distinct) names, and not at all otherwise. */
  lemma {:induction false} SpreadStep(p: seq<Block>, b: Block, key: GroupKey, names: seq<string>, m: Measure)
    requires forall i, j :: 0 <= i < j < |names| ==> names[i] != names[j]
    ensures Spread(p + [b], key, names, m) ==
      Spread(p, key, names, m) + (if KeyOf(b, key) in names then Weight(b, m) else 0)
  {
    if names != [] {
      var init := names[..|names| - 1];
      var last := names[|names| - 1];
      assert names == init + [last];
      SpreadStep(p, b, key, init, m);
      assert (p + [b])[..|p + [b]| - 1] == p;
      assert KeyOf(b, key) in names <==> KeyOf(b, key) in init || KeyOf(b, key) == last;
      if KeyOf(b, key) == last {
        assert last !in init by {
          forall j | 0 <= j < |init| ensures init[j] != last {
            assert names[j] != names[|names| - 1];
          }
        }
      }
    }
  }

  /** Adding every group's figure gives the figure over the whole ledger:
      group quantities add up to the total parsed quantity, and group
      counts to the number of blocks. */
  lemma {:induction false} GroupTotals(chain: seq<Block>, key: GroupKey, m: Measure)
    ensures Spread(chain, key, Names(chain, key), m) == Total(chain, m)
  {
    if chain == [] {
    } else {
      var p := chain[..|chain| - 1];
      var b := chain[|chain| - 1];
      var k := KeyOf(b, key);
      assert chain == p + [b];
      GroupTotals(p, key, m);
      var np := Names(p, key);
      SpreadStep(p, b, key, np, m);
      if k !in np {
        AbsentZero(p, key, k);
        assert Names(chain, key) == np + [k];
        assert (np + [k])[..|np|] == np;
        assert chain[..|chain| - 1] == p;
      }
    }
  }

  /** One per block: the count total is the ledger length. */
  lemma {:induction false} CountTotal(chain: seq<Block>)
    ensures Total(chain, PerBlock) == |chain|
  {
    if chain != [] {
      CountTotal(chain[..|chain| - 1]);
    }
  }

  /** `cropArray.reduce((sum, crop) => sum + crop.quantity, 0)`. */
  function TallyTotal(ts: seq<Tally>): int
  {
    if ts == [] then 0 else TallyTotal(ts[..|ts| - 1]) + ts[|ts| - 1].quantity
  }

  lemma {:induction false} TallyTotalSpread(chain: seq<Block>, key: GroupKey, names: seq<string>)
    ensures TallyTotal(TalliesFor(chain, key, names)) == Spread(chain, key, names, Parsed)
  {
    if names != [] {
      var init := names[..|names| - 1];
      TallyTotalSpread(chain, key, init);
      var ts := TalliesFor(chain, key, names);
      assert ts[..|ts| - 1] == TalliesFor(chain, key, init);
    }
  }

  /** The `summary` object of `exportAnalytics`, without `totalValue`. */
  datatype Summary = Summary(totalBlocks: nat, totalQuantity: int, uniqueCrops: nat, uniqueFarmers: nat)

  /** The summary built from both reductions: the ledger length, the
      parsed quantities summed over the crop groups (which is the sum over
      all blocks), and the numbers of distinct crops and farmers. */
  method ExportSummary(chain: seq<Block>) returns (s: Summary)
    ensures s.totalBlocks == |chain|
    ensures s.totalQuantity == Total(chain, Parsed)
    ensures s.uniqueCrops == |NameSet(chain, ByCrop)| && s.uniqueFarmers == |NameSet(chain, ByFarmer)|
  {
    var crops := GroupBlocks(chain, ByCrop);
    var farmers := GroupBlocks(chain, ByFarmer);
    TallyTotalSpread(chain, ByCrop, Names(chain, ByCrop));
    GroupTotals(chain, ByCrop, Parsed);
    UniqueCounts(chain, ByCrop);
    UniqueCounts(chain, ByFarmer);
    s := Summary(|chain|, TallyTotal(crops), |crops|, |farmers|);
  }

  /** The set of distinct names under `key`. */
  function NameSet(chain: seq<Block>, key: GroupKey): set<string>
  {
    set i | 0 <= i < |chain| :: KeyOf(chain[i], key)
  }

  /** `uniqueCrops` and `uniqueFarmers` count distinct names. */
  lemma {:induction false} UniqueCounts(chain: seq<Block>, key: GroupKey)
    ensures |Names(chain, key)| == |NameSet(chain, key)|
  {
    var ns := Names(chain, key);
    assert forall n :: n in NameSet(chain, key) <==> Occurs(chain, key, n);
    DistinctCard(ns);
    assert NameSet(chain, key) == set x | x in ns;
  }

  lemma {:induction false} DistinctCard(ns: seq<string>)
    requires forall i, j :: 0 <= i < j < |ns| ==> ns[i] != ns[j]
    ensures |set x | x in ns| == |ns|
  {
    if ns != [] {
      var init := ns[..|ns| - 1];
      var last := ns[|ns| - 1];
      DistinctCard(init);
      assert ns == init + [last];
      assert last !in init by {
        forall j | 0 <= j < |init| ensures init[j] != last {
          assert ns[j] != ns[|ns| - 1];
        }
      }
      assert (set x | x in ns) == (set x | x in init) + {last};
    }
  }

  /** One point of `timeSeriesData`: the position and the parsed
      quantity (`price`, `value` and the locale date are not modelled). */
  datatype Point = Point(blockIndex: nat, quantity: int)

  function TimeSeries(chain: seq<Block>): (r: seq<Point>)
    ensures |r| == |chain|
    ensures forall i :: 0 <= i < |chain| ==> r[i].blockIndex == i && r[i].quantity == Quantity(chain[i])
  {
    seq(|chain|, i requires 0 <= i < |chain| => Point(i, Quantity(chain[i])))
  }

  function SeriesTotal(ps: seq<Point>): int
  {
    if ps == [] then 0 else SeriesTotal(ps[..|ps| - 1]) + ps[|ps| - 1].quantity
  }

  /** The series and the summary agree: the series quantities add up to
      the summary's total quantity. */
  lemma {:induction false} SeriesMatchesSummary(chain: seq<Block>)
    ensures SeriesTotal(TimeSeries(chain)) == Total(chain, Parsed)
  {
    if chain != [] {
      var p := chain[..|chain| - 1];
      SeriesMatchesSummary(p);
      var r := TimeSeries(chain);
      assert r[..|r| - 1] == TimeSeries(p);
    }
  }

  /** The CSV header row. */
  const Header: seq<string> := ["Block Index", "Farmer", "Crop", "Quantity (kg)", "Price (\U{20B9}/kg)", "Total Value (\U{20B9})", "Timestamp"]

  /** One data row: the position, the five raw text fields around the
      total value, whose rendering (a product of floating-point numbers)
      is supplied as `value`. */
  function Row(b: Block, i: nat, value: string): (r: seq<string>)
    ensures |r| == 7
    ensures r[0] == NatToString(i) && r[1] == b.farmer && r[2] == b.crop
    ensures r[3] == b.quantity && r[4] == b.price && r[5] == value && r[6] == b.timestamp
  {
    [NatToString(i), b.farmer, b.crop, b.quantity, b.price, value, b.timestamp]
  }

  /** The rows of `csvData`: the header, then one row per block in ledger
      order. */
  function CsvRows(chain: seq<Block>, value: Block -> string): (rows: seq<seq<string>>)
    ensures |rows| == |chain| + 1 && rows[0] == Header
    ensures forall i :: 0 <= i < |chain| ==> rows[i + 1] == Row(chain[i], i, value(chain[i]))
  {
    [Header] + seq(|chain|, i requires 0 <= i < |chain| => Row(chain[i], i, value(chain[i])))
  }

  /** Each row joined with "," and not quoted. */
  function Lines(rows: seq<seq<string>>): (ls: seq<string>)
    ensures |ls| == |rows|
    ensures forall i :: 0 <= i < |rows| ==> ls[i] == Join(rows[i], ",")
  {
    seq(|rows|, i requires 0 <= i < |rows| => Join(rows[i], ","))
  }

  /** `csvContent`: the lines joined with "\n". It opens with the header
      line, closes with the line of the last block, and holds at least one
      line break per block. */
  function Csv(chain: seq<Block>, value: Block -> string): (r: string)
    ensures var h := Join(Header, ","); |h| <= |r| && r[..|h|] == h
    ensures |chain| > 0 ==>
      var n := |chain| - 1;
      var last := Join(Row(chain[n], n, value(chain[n])), ",");
      |last| <= |r| && r[|r| - |last|..] == last
    ensures Count(r, '\n') >= |chain|
  {
    var rows := CsvRows(chain, value);
    var ls := Lines(rows);
    var r := Join(ls, "\n");
    assert |ls| == |chain| + 1;
    assert ls[0] == Join(Header, ",");
    assert |chain| > 0 ==> ls[|ls| - 1] == Join(Row(chain[|chain| - 1], |chain| - 1, value(chain[|chain| - 1])), ",") by {
      if |chain| > 0 {
        assert rows[|chain|] == Row(chain[|chain| - 1], |chain| - 1, value(chain[|chain| - 1]));
      }
    }
    JoinEnds(ls, "\n");
    CountJoin(ls, '\n');
    r
  }

  /** The character `c` occurs in no field of the block that the CSV
      copies. */
  predicate FieldsFree(b: Block, value: string, c: char) {
    c !in b.farmer && c !in b.crop && c !in b.quantity && c !in b.price && c !in value && c !in b.timestamp
  }

  lemma {:induction false} HeaderPlain()
    ensures forall i :: 0 <= i < |Header| ==> ',' !in Header[i] && '\n' !in Header[i]
  {
  }

  lemma {:induction false} RowFree(b: Block, i: nat, value: string, c: char)
    requires c == ',' || c == '\n'
    requires FieldsFree(b, value, c)
    ensures forall k :: 0 <= k < 7 ==> c !in Row(b, i, value)[k]
  {
    var r := Row(b, i, value);
    assert forall k :: 0 <= k < |r[0]| ==> '0' <= r[0][k] <= '9';
  }

  /** A row's line holds no line break when its fields hold none. */
  lemma {:induction false} LineFree(parts: seq<string>, c: char)
    requires c != ','
    requires forall k :: 0 <= k < |parts| ==> c !in parts[k]
    ensures c !in Join(parts, ",")
  {
    if |parts| > 1 {
      assert forall k :: 0 <= k < |parts| - 1 ==> parts[1..][k] == parts[k + 1];
      LineFree(parts[1..], c);
      assert Join(parts, ",") == parts[0] + "," + Join(parts[1..], ",");
    }
  }

  /** Reading the CSV back: when no field holds a line break, splitting
      on "\n" gives back one line per row, the header first. */
  lemma {:induction false} CsvReadBack(chain: seq<Block>, value: Block -> string)
    requires forall i :: 0 <= i < |chain| ==> FieldsFree(chain[i], value(chain[i]), '\n')
    ensures Split(Csv(chain, value), '\n') == Lines(CsvRows(chain, value))
  {
    var rows := CsvRows(chain, value);
    var ls := Lines(rows);
    HeaderPlain();
    forall i | 0 <= i < |ls| ensures '\n' !in ls[i] {
      if i == 0 {
        LineFree(Header, '\n');
      } else {
        RowFree(chain[i - 1], i - 1, value(chain[i - 1]), '\n');
        LineFree(rows[i], '\n');
      }
    }
    SplitJoin(ls, '\n');
  }

  /** A data line whose fields hold no comma splits into its seven
      fields, and its first field parses back to the block's position. */
  lemma {:induction false} RowReadBack(b: Block, i: nat, value: string)
    requires FieldsFree(b, value, ',')
    ensures Split(Join(Row(b, i, value), ","), ',') == Row(b, i, value)
    ensures ParseInt(Split(Join(Row(b, i, value), ","), ',')[0]) == Some(i)
  {
    RowFree(b, i, value, ',');
    SplitJoin(Row(b, i, value), ',');
    ParseNatToString(i);
  }

  /** Fields are not quoted: a farmer name with a comma gives its line
      more than seven comma-separated fields, one more per comma. */
  lemma {:induction false} CommaInFarmerShifts(b: Block, i: nat, value: string)
    requires ',' !in b.crop && ',' !in b.quantity && ',' !in b.price && ',' !in value && ',' !in b.timestamp
    ensures |Split(Join(Row(b, i, value), ","), ',')| == 7 + Count(b.farmer, ',')
  {
    var r := Row(b, i, value);
    CountJoin(r, ',');
    RowCommas(b, i, value);
  }

  lemma {:induction false} RowCommas(b: Block, i: nat, value: string)
    requires ',' !in b.crop && ',' !in b.quantity && ',' !in b.price && ',' !in value && ',' !in b.timestamp
    ensures CountAll(Row(b, i, value), ',') == Count(b.farmer, ',')
  {
    var r := Row(b, i, value);
    assert ',' !in r[0] by {
      assert forall k :: 0 <= k < |r[0]| ==> '0' <= r[0][k] <= '9';
    }
    assert r[1..][1..] == r[2..];
    assert CountAll(r[2..], ',') == 0;
  }
}
