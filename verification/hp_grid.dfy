/** The hyperparameter grid: three tiers of nested loops over the layer
    widths and five lists of five values each, numbered by a running counter
    and written one record per model folder. */
module HpGrid {
  import opened Outcomes
  import opened Seqs
  import opened Text
  import opened HpRecord

  // ---------------------------------------------------------------------------
  // nested loops as a mixed-radix odometer

  /** An index vector for nested loops whose ranges are the radices. */
  predicate InRadices(radices: seq<nat>, v: seq<nat>)
  {
    |v| == |radices| && forall i :: 0 <= i < |v| ==> v[i] < radices[i]
  }

  function Prod(radices: seq<nat>): nat
  {
    if |radices| == 0 then 1 else radices[0] * Prod(radices[1..])
  }

  /** Position of iteration (i, j) when each outer step runs inner inner steps. */
  function Pos(i: nat, j: nat, inner: nat): nat
  {
    i * inner + j
  }

  /** The outer loop variable i in front of every iteration of the inner
      loops, for i = 0 .. m-1 in order. */
  function Prefixed(m: nat, rest: seq<seq<nat>>): (r: seq<seq<nat>>)
    ensures |r| == m * |rest|
    ensures forall k :: 0 <= k < |r| ==> |r[k]| >= 1 && r[k][0] < m && r[k][1..] in rest
  {
    if m == 0 then []
    else
      var tail := seq(|rest|, j requires 0 <= j < |rest| => [m - 1] + rest[j]);
      assert forall j :: 0 <= j < |rest| ==> tail[j][1..] == rest[j];
      Prefixed(m - 1, rest) + tail
  }

  /** Iteration j of the inner loops during outer step i is number Pos(i, j, |rest|). */
  lemma {:induction false} PrefixedAt(m: nat, rest: seq<seq<nat>>, i: nat, j: nat)
    requires i < m && j < |rest|
    ensures Pos(i, j, |rest|) < |Prefixed(m, rest)|
    ensures Prefixed(m, rest)[Pos(i, j, |rest|)] == [i] + rest[j]
  {
    var prev := Prefixed(m - 1, rest);
    if i < m - 1 {
      PrefixedAt(m - 1, rest, i, j);
      assert Pos(i, j, |rest|) < |prev|;
    } else {
      assert Pos(i, j, |rest|) == |prev| + j;
    }
  }

  /** The iterations of nested loops with the given ranges, outermost first,
      the innermost loop varying fastest. */
  function Odometer(radices: seq<nat>): (r: seq<seq<nat>>)
    ensures |r| == Prod(radices)
    ensures forall k :: 0 <= k < |r| ==> InRadices(radices, r[k])
  {
    if |radices| == 0 then [[]]
    else
      var rest := Odometer(radices[1..]);
      var r := Prefixed(radices[0], rest);
      assert forall k :: 0 <= k < |r| ==> r[k] == [r[k][0]] + r[k][1..];
      r
  }

  /** Row-major position of an index vector. */
  function Linear(radices: seq<nat>, v: seq<nat>): nat
    requires |v| == |radices|
  {
    if |v| == 0 then 0 else v[0] * Prod(radices[1..]) + Linear(radices[1..], v[1..])
  }

  lemma {:induction false} LinearBound(radices: seq<nat>, v: seq<nat>)
    requires InRadices(radices, v)
    ensures Linear(radices, v) < Prod(radices)
  {
    if |v| > 0 {
      LinearBound(radices[1..], v[1..]);
      var p := Prod(radices[1..]);
      assert (v[0] + 1) * p <= radices[0] * p by {
        MulMono(v[0] + 1, radices[0], p);
      }
    }
  }

  lemma MulMono(a: nat, b: nat, c: nat)
    requires a <= b
    ensures a * c <= b * c
  {
  }

  /** The mixed-radix digits of k: the loop indices of iteration number k
      of nested loops with the given ranges. */
  function Digits(radices: seq<nat>, k: nat): (v: seq<nat>)
    requires k < Prod(radices)
    ensures |v| == |radices|
  {
    if |radices| == 0 then []
    else
      DigitBounds(radices, k);
      var p := Prod(radices[1..]);
      [k / p] + Digits(radices[1..], k % p)
  }

  /** Each digit is below its radix. */
  lemma {:induction false} DigitsInRadices(radices: seq<nat>, k: nat)
    requires k < Prod(radices)
    ensures InRadices(radices, Digits(radices, k))
  {
    if |radices| > 0 {
      var p, q, m := DigitStep(radices, k);
      DigitsInRadices(radices[1..], m);
      DigitsCons(radices, k);
    }
  }

  /** The leading digit in front of in-range lower digits is in range. */
  lemma DigitsCons(radices: seq<nat>, k: nat)
    requires |radices| > 0 && k < Prod(radices) && Prod(radices[1..]) > 0
    requires InRadices(radices[1..], Digits(radices[1..], k % Prod(radices[1..])))
    ensures InRadices(radices, Digits(radices, k))
  {
    var p, q, m := DigitStep(radices, k);
    ConsInRadices(radices, q, Digits(radices[1..], m));
  }

  /** The leading digit of k is below the first radix and the remainder is
      a number for the remaining radices. */
  lemma DigitStep(radices: seq<nat>, k: nat) returns (p: nat, q: nat, m: nat)
    requires |radices| > 0 && k < Prod(radices)
    ensures p == Prod(radices[1..]) && p > 0
    ensures q == k / p && q < radices[0]
    ensures m == k % p && m < p
  {
    DigitBounds(radices, k);
    p := Prod(radices[1..]);
    q, m := k / p, k % p;
  }

  lemma DigitBounds(radices: seq<nat>, k: nat)
    requires |radices| > 0 && k < Prod(radices)
    ensures Prod(radices[1..]) > 0
    ensures k / Prod(radices[1..]) < radices[0] && k % Prod(radices[1..]) < Prod(radices[1..])
  {
    DivBelow(k, Prod(radices[1..]), radices[0]);
  }

  lemma ConsInRadices(radices: seq<nat>, x: nat, rest: seq<nat>)
    requires |radices| > 0 && x < radices[0] && InRadices(radices[1..], rest)
    ensures InRadices(radices, [x] + rest)
  {
    var v := [x] + rest;
    assert forall i :: 1 <= i < |v| ==> v[i] == rest[i - 1];
  }

  /** k < r * p bounds the quotient by r. */
  lemma DivBelow(k: nat, p: nat, r: nat)
    requires k < r * p
    ensures p > 0 && k / p < r && k % p < p
  {
    if p == 0 {
      assert false;
    }
    if k / p >= r {
      MulMono(r, k / p, p);
      assert false;
    }
  }

  /** Quotient and remainder of q * p + r by p, for 0 <= r < p. */
  lemma DivModOf(q: nat, r: nat, p: nat)
    requires r < p
    ensures (q * p + r) / p == q && (q * p + r) % p == r
  {
    var x := q * p + r;
    var d := x / p;
    assert x == d * p + x % p;
    if d > q {
      MulMono(q + 1, d, p);
    } else if d < q {
      MulMono(d + 1, q, p);
    }
  }

  /** Reading the digits of k back as a number gives k. */
  lemma {:induction false} LinearDigits(radices: seq<nat>, k: nat)
    requires k < Prod(radices)
    ensures Linear(radices, Digits(radices, k)) == k
  {
    if |radices| > 0 {
      var p, q, m := DigitStep(radices, k);
      LinearDigits(radices[1..], m);
      var v := Digits(radices, k);
      assert v[0] == q && v[1..] == Digits(radices[1..], m);
      assert Linear(radices, v) == q * p + m;
      DivModSum(k, p);
    }
  }

  lemma DivModSum(k: nat, p: nat)
    requires p > 0
    ensures (k / p) * p + k % p == k
  {
  }

  /** The digits of the number of an index vector are the vector itself. */
  lemma {:induction false} DigitsLinear(radices: seq<nat>, v: seq<nat>)
    requires InRadices(radices, v)
    ensures Linear(radices, v) < Prod(radices)
    ensures Digits(radices, Linear(radices, v)) == v
  {
    LinearBound(radices, v);
    if |v| > 0 {
      var p := Prod(radices[1..]);
      var rest := Linear(radices[1..], v[1..]);
      LinearBound(radices[1..], v[1..]);
      DivModOf(v[0], rest, p);
      DigitsLinear(radices[1..], v[1..]);
      assert v == [v[0]] + v[1..];
    }
  }

  /** The iteration with index vector v is number Linear(radices, v) of the
      nested loops. */
  lemma {:induction false} OdometerAt(radices: seq<nat>, v: seq<nat>)
    requires InRadices(radices, v)
    ensures Linear(radices, v) < |Odometer(radices)|
    ensures Odometer(radices)[Linear(radices, v)] == v
  {
    LinearBound(radices, v);
    if |v| > 0 {
      var rest := Odometer(radices[1..]);
      OdometerAt(radices[1..], v[1..]);
      PrefixedAt(radices[0], rest, v[0], Linear(radices[1..], v[1..]));
      assert v == [v[0]] + v[1..];
    }
  }

  /** Iteration number k of the nested loops runs with the digits of k. */
  lemma OdometerDigits(radices: seq<nat>, k: nat)
    requires k < Prod(radices)
    ensures k < |Odometer(radices)| && Odometer(radices)[k] == Digits(radices, k)
  {
    DigitsInRadices(radices, k);
    OdometerAt(radices, Digits(radices, k));
    LinearDigits(radices, k);
  }

  // ---------------------------------------------------------------------------
  // the grid

  /** The value lists shared by all three tiers; the float lists are kept as
      the text str() prints for 0.0 .. 0.4 and 1e-6 .. 1e-2. */
  const DropoutValues: seq<string> := ["0.0", "0.1", "0.2", "0.3", "0.4"]
  const AlphaValues: seq<string> := ["0.0", "0.1", "0.2", "0.3", "0.4"]
  const LrValues: seq<string> := ["1e-06", "1e-05", "0.0001", "0.001", "0.01"]
  const EpochsValues: seq<int> := [100, 200, 300, 400, 500]
  const BatchSizes: seq<int> := [4, 8, 16, 32, 64]

  /** One block of the generator: hidden-layer count, the layer-width
      choices, the first model ID and the number of records it writes. */
  datatype Tier = Tier(numLayers: int, neuronsList: seq<seq<int>>, start: int, numModels: nat)

  const OneLayer := Tier(1, [[1000], [500], [250]], 1, 9375)
  const TwoLayers := Tier(2, [[1000, 500], [1000, 250], [500, 250]], 9376, 9375)
  const ThreeLayers := Tier(3, [[1000, 500, 250]], 18751, 3125)

  /** The three tiers the generator writes. */
  predicate IsTier(t: Tier)
  {
    t == OneLayer || t == TwoLayers || t == ThreeLayers
  }

  /** The grid data: five values in every shared list, none repeated, and in
      each tier numLayers widths per choice, each choice listed once. */
  lemma GridLists()
    ensures |DropoutValues| == |AlphaValues| == |LrValues| == |EpochsValues| == |BatchSizes| == 5
    ensures Distinct(DropoutValues) && Distinct(AlphaValues) && Distinct(LrValues)
    ensures Distinct(EpochsValues) && Distinct(BatchSizes)
    ensures forall t :: IsTier(t) ==> Distinct(t.neuronsList) && WidthsMatch(t)
  {
    forall t | IsTier(t)
      ensures Distinct(t.neuronsList) && WidthsMatch(t)
    {
      TiersWidthsMatch(t);
    }
  }

  /** Number of model folders created before any record is written. */
  const NumDnnFolders: nat := 21875

  function Radices(t: Tier): seq<nat>
  {
    [|t.neuronsList|, |DropoutValues|, |AlphaValues|, |LrValues|, |EpochsValues|, |BatchSizes|]
  }

  /** The configuration of one iteration of the six nested loops. */
  function ConfigAt(t: Tier, v: seq<nat>): HpConfig
    requires InRadices(Radices(t), v)
  {
    HpConfig(t.numLayers, t.neuronsList[v[0]], DropoutValues[v[1]], AlphaValues[v[2]],
             LrValues[v[3]], EpochsValues[v[4]], BatchSizes[v[5]])
  }

  /** The configurations in the order the nested loops append them: row k
      is built from the digits of k (see LoopOrder). */
  function Configs(t: Tier): (r: seq<HpConfig>)
    ensures |r| == Prod(Radices(t))
  {
    var n := Prod(Radices(t));
    seq(n, k requires 0 <= k < n => DigitsInRadices(Radices(t), k); ConfigAt(t, Digits(Radices(t), k)))
  }

  /** Row k is the configuration of iteration k of the six nested loops. */
  lemma LoopOrder(t: Tier, k: nat)
    requires k < |Configs(t)|
    ensures k < |Odometer(Radices(t))|
    ensures Configs(t)[k] == ConfigAt(t, Odometer(Radices(t))[k])
  {
    OdometerDigits(Radices(t), k);
  }

  /** A row of the generated list: the counter value and the configuration. */
  datatype Entry = Entry(id: int, config: HpConfig)

  /** Appending with a running counter that starts at c: the k-th appended
      row carries counter value c + k. */
  function Number(cs: seq<HpConfig>, c: int): (r: seq<Entry>)
    ensures |r| == |cs|
  {
    seq(|cs|, k requires 0 <= k < |cs| => Entry(c + k, cs[k]))
  }

  function Entries(t: Tier): (r: seq<Entry>)
    ensures |r| == |Configs(t)|
  {
    Number(Configs(t), t.start)
  }

  /** The number of rows is the product of the six list lengths. */
  lemma TierCounts()
    ensures |Entries(OneLayer)| == 9375 == OneLayer.numModels
    ensures |Entries(TwoLayers)| == 9375 == TwoLayers.numModels
    ensures |Entries(ThreeLayers)| == 3125 == ThreeLayers.numModels
  {
  }

  /** Row-major numbering: batch size varies fastest and the layer widths
      slowest, so the model ID is the start plus the mixed-radix number of
      the six loop indices. */
  lemma ModelId(t: Tier, n: nat, d: nat, a: nat, l: nat, e: nat, b: nat)
    requires n < |t.neuronsList| && d < 5 && a < 5 && l < 5 && e < 5 && b < 5
    ensures var k := ((((n * 5 + d) * 5 + a) * 5 + l) * 5 + e) * 5 + b;
      k < |Entries(t)| &&
      Entries(t)[k] == Entry(t.start + k, HpConfig(t.numLayers, t.neuronsList[n], DropoutValues[d],
                                                     AlphaValues[a], LrValues[l], EpochsValues[e], BatchSizes[b]))
  {
    var v: seq<nat> := [n, d, a, l, e, b];
    var rs := Radices(t);
    assert InRadices(rs, v);
    DigitsLinear(rs, v);
    assert Linear(rs[5..], v[5..]) == b;
    assert Linear(rs[4..], v[4..]) == e * 5 + b;
    assert Linear(rs[3..], v[3..]) == l * 25 + e * 5 + b;
    assert Linear(rs[2..], v[2..]) == a * 125 + l * 25 + e * 5 + b;
    assert Linear(rs[1..], v[1..]) == d * 625 + a * 125 + l * 25 + e * 5 + b;
    var k := Linear(rs, v);
    assert k == ((((n * 5 + d) * 5 + a) * 5 + l) * 5 + e) * 5 + b;
    assert Configs(t)[k] == ConfigAt(t, v);
  }

  /** The IDs of a tier are consecutive, from the start counter to
      start + count - 1. */
  lemma {:induction false} TierIds(t: Tier)
    ensures forall k :: 0 <= k < |Entries(t)| ==> Entries(t)[k].id == t.start + k
    ensures Elems(Ids(Entries(t))) == Interval(t.start, t.start + |Entries(t)|)
  {
    var es := Entries(t);
    forall x | x in Interval(t.start, t.start + |es|)
      ensures x in Elems(Ids(es))
    {
      assert Ids(es)[x - t.start] == x;
    }
  }

  function Ids(es: seq<Entry>): (r: seq<int>)
    ensures |r| == |es| && forall k :: 0 <= k < |es| ==> r[k] == es[k].id
  {
    seq(|es|, k requires 0 <= k < |es| => es[k].id)
  }

  /** Every configuration of a tier has one layer width per hidden layer. */
  predicate WidthsMatch(t: Tier)
  {
    forall i :: 0 <= i < |t.neuronsList| ==> |t.neuronsList[i]| == t.numLayers
  }

  lemma TiersWidthsMatch(t: Tier)
    requires IsTier(t)
    ensures WidthsMatch(t) && t.numLayers >= 1
  {
  }

  lemma TokensWellFormed()
    ensures forall i :: 0 <= i < 5 ==> IsToken(DropoutValues[i]) && IsToken(AlphaValues[i]) && IsToken(LrValues[i])
  {
  }

  /** Every generated configuration can be written and read back, and its
      neurons list has numLayers entries. */
  lemma EntryWellFormed(t: Tier, k: nat)
    requires WidthsMatch(t) && t.numLayers >= 1
    requires k < |Entries(t)|
    ensures WellFormed(Entries(t)[k].config)
    ensures |Entries(t)[k].config.neurons| == Entries(t)[k].config.numLayers == t.numLayers
  {
    TokensWellFormed();
    DigitsInRadices(Radices(t), k);
  }

  // ---------------------------------------------------------------------------
  // writing the records

  /** The write loop `for i in range(0, num_models)`: value i goes to the
      file named ids[i]; a count past the list raises IndexError. */
  function Store<T>(files: map<int, T>, ids: seq<int>, vals: seq<T>, count: nat): (r: Result<map<int, T>>)
    requires |ids| == |vals|
    ensures r.Success? <==> count <= |ids|
    ensures r.Success? ==> r.value.Keys == files.Keys + Elems(ids[..count])
    ensures r.Success? ==> forall key :: key in files && key !in ids[..count] ==> r.value[key] == files[key]
  {
    if count == 0 then Success(files)
    else if count > |ids| then Failure(IndexOutOfRange)
    else
      var m := Store(files, ids, vals, count - 1).value;
      assert ids[..count] == ids[..count - 1] + [ids[count - 1]];
      Success(m[ids[count - 1] := vals[count - 1]])
  }

  /** Value j survives unless a later one of the first count values goes to
      the same file. */
  lemma {:induction false} StoredAt<T>(files: map<int, T>, ids: seq<int>, vals: seq<T>, count: nat, j: nat)
    requires |ids| == |vals| && j < count <= |ids|
    requires forall i :: j < i < count ==> ids[i] != ids[j]
    ensures Store(files, ids, vals, count).value[ids[j]] == vals[j]
  {
    if j < count - 1 {
      StoredAt(files, ids, vals, count - 1, j);
    }
  }

  /** With distinct file names, each of the first count values ends up in its own file. */
  lemma StoredAll<T>(files: map<int, T>, ids: seq<int>, vals: seq<T>, count: nat)
    requires |ids| == |vals| && count <= |ids| && Distinct(ids[..count])
    ensures forall j :: 0 <= j < count ==> Store(files, ids, vals, count).value[ids[j]] == vals[j]
  {
    forall j | 0 <= j < count
      ensures Store(files, ids, vals, count).value[ids[j]] == vals[j]
    {
      forall i | j < i < count
        ensures ids[i] != ids[j]
      {
        assert ids[..count][i] == ids[i] && ids[..count][j] == ids[j];
      }
      StoredAt(files, ids, vals, count, j);
    }
  }

  function RowConfigs(es: seq<Entry>): (r: seq<HpConfig>)
    ensures |r| == |es| && forall k :: 0 <= k < |es| ==> r[k] == es[k].config
  {
    seq(|es|, k requires 0 <= k < |es| => es[k].config)
  }

  /** The write loop of one tier. A deck map says, for each model folder,
      which configuration its hp_input_deck.txt was written from; the file
      text itself is WriteRecord of that configuration (see Files). */
  function WriteEntries(decks: map<int, HpConfig>, es: seq<Entry>, count: nat): Result<map<int, HpConfig>>
  {
    Store(decks, Ids(es), RowConfigs(es), count)
  }

  /** The rows one write loop walks through and its num_models. */
  datatype Block = Block(rows: seq<Entry>, count: nat)

  function TierBlock(t: Tier): Block
  {
    Block(Entries(t), t.numModels)
  }

  /** The tiers in the order the generator writes them. */
  function TierBlocks(): seq<Block>
  {
    [TierBlock(OneLayer), TierBlock(TwoLayers), TierBlock(ThreeLayers)]
  }

  /** Write loops run one after the other. */
  function WriteBlocks(decks: map<int, HpConfig>, blocks: seq<Block>): Result<map<int, HpConfig>>
    decreases |blocks|
  {
    if |blocks| == 0 then Success(decks)
    else
      var d :- WriteEntries(decks, blocks[0].rows, blocks[0].count);
      WriteBlocks(d, blocks[1..])
  }

  /** The three write loops. */
  function GenerateDecks(): Result<map<int, HpConfig>>
  {
    WriteBlocks(map[], TierBlocks())
  }

  /** The text of every written hp_input_deck.txt, by model ID. */
  function Files(decks: map<int, HpConfig>): (files: map<int, string>)
    ensures files.Keys == decks.Keys
  {
    map id | id in decks :: WriteRecord(decks[id])
  }

  /** The model folders 1 .. num_dnn_folders. */
  function Folders(): set<int>
  {
    Interval(1, NumDnnFolders + 1)
  }

  /** A loop that writes all its rows, numbered start, start+1, ... */
  predicate Numbered(b: Block, start: int)
  {
    b.count == |b.rows| && forall k :: 0 <= k < |b.rows| ==> b.rows[k].id == start + k
  }

  /** Each loop starts numbering where the previous one stopped. */
  predicate Chained(blocks: seq<Block>, start: int)
    decreases |blocks|
  {
    |blocks| == 0 || (Numbered(blocks[0], start) && Chained(blocks[1..], start + blocks[0].count))
  }

  lemma ChainedTail(blocks: seq<Block>, start: int)
    requires |blocks| > 0 && Chained(blocks, start)
    ensures Numbered(blocks[0], start) && Chained(blocks[1..], start + blocks[0].count)
  {
  }

  /** One past the last ID written by chained loops. */
  function End(blocks: seq<Block>, start: int): (e: int)
    ensures e >= start
    decreases |blocks|
  {
    if |blocks| == 0 then start else End(blocks[1..], start + blocks[0].count)
  }

  /** Consecutive IDs are distinct and fill their interval. */
  lemma ConsecutiveIds(es: seq<Entry>, start: int)
    requires forall k :: 0 <= k < |es| ==> es[k].id == start + k
    ensures Distinct(Ids(es))
    ensures Elems(Ids(es)) == Interval(start, start + |es|)
  {
    var ids := Ids(es);
    forall x | x in Interval(start, start + |es|)
      ensures x in Elems(ids)
    {
      assert ids[x - start] == x;
    }
  }

  /** Rows numbered start, start+1, ... are written to the folders start ..
      start + count - 1, and every other folder is left as it was. */
  lemma ConsecutiveKeys(decks: map<int, HpConfig>, es: seq<Entry>, start: int)
    requires forall k :: 0 <= k < |es| ==> es[k].id == start + k
    ensures var r := WriteEntries(decks, es, |es|);
      && r.Success?
      && r.value.Keys == decks.Keys + Interval(start, start + |es|)
      && (forall key :: key in decks && !(start <= key < start + |es|) ==> r.value[key] == decks[key])
  {
    var ids := Ids(es);
    ConsecutiveIds(es, start);
    assert ids[..|es|] == ids;
  }

  /** Each of those folders receives its own row. */
  lemma ConsecutiveRows(decks: map<int, HpConfig>, es: seq<Entry>, start: int)
    requires forall k :: 0 <= k < |es| ==> es[k].id == start + k
    ensures WriteEntries(decks, es, |es|).Success?
    ensures forall k :: 0 <= k < |es| ==>
      es[k].id in WriteEntries(decks, es, |es|).value && WriteEntries(decks, es, |es|).value[es[k].id] == es[k].config
  {
    var ids := Ids(es);
    var vals := RowConfigs(es);
    var r := Store(decks, ids, vals, |es|);
    ConsecutiveIds(es, start);
    assert ids[..|es|] == ids;
    StoredAll(decks, ids, vals, |es|);
    forall k | 0 <= k < |es|
      ensures es[k].id in r.value && r.value[es[k].id] == es[k].config
    {
      assert ids[k] == es[k].id && vals[k] == es[k].config;
      assert ids[k] in Elems(ids[..|es|]);
    }
  }

  /** The first of chained write loops succeeds and adds only IDs below
      the next loop's start. */
  lemma FirstBlock(decks: map<int, HpConfig>, blocks: seq<Block>, start: int)
    requires |blocks| > 0 && Chained(blocks, start)
    requires forall key :: key in decks ==> key < start
    ensures WriteEntries(decks, blocks[0].rows, blocks[0].count).Success?
    ensures forall key :: key in WriteEntries(decks, blocks[0].rows, blocks[0].count).value ==> key < start + blocks[0].count
    ensures WriteBlocks(decks, blocks) == WriteBlocks(WriteEntries(decks, blocks[0].rows, blocks[0].count).value, blocks[1..])
  {
    ConsecutiveKeys(decks, blocks[0].rows, start);
  }

  /** Chained write loops into a map of lower IDs succeed, add exactly the
      IDs start .. End - 1, and leave the earlier folders as they were. */
  lemma {:induction false} WriteBlocksDomain(decks: map<int, HpConfig>, blocks: seq<Block>, start: int)
    requires Chained(blocks, start)
    requires forall key :: key in decks ==> key < start
    ensures WriteBlocks(decks, blocks).Success?
    ensures WriteBlocks(decks, blocks).value.Keys == decks.Keys + Interval(start, End(blocks, start))
    ensures forall key :: key in decks ==> WriteBlocks(decks, blocks).value[key] == decks[key]
    decreases |blocks|
  {
    if |blocks| > 0 {
      var b := blocks[0];
      var next := start + b.count;
      FirstBlock(decks, blocks, start);
      var d := WriteEntries(decks, b.rows, b.count).value;
      ChainedTail(blocks, start);
      WriteBlocksDomain(d, blocks[1..], next);
      BlockKeys(decks, b, start);
      EndTail(blocks, start);
      IntervalSplit(start, next, End(blocks[1..], next));
    }
  }

  /** Row k of loop i of chained write loops ends up in the folder named by
      its ID. */
  lemma {:induction false} WriteBlocksRow(decks: map<int, HpConfig>, blocks: seq<Block>, start: int, i: nat, k: nat)
    requires Chained(blocks, start)
    requires forall key :: key in decks ==> key < start
    requires i < |blocks| && k < |blocks[i].rows|
    ensures WriteBlocks(decks, blocks).Success?
    ensures blocks[i].rows[k].id in WriteBlocks(decks, blocks).value
    ensures WriteBlocks(decks, blocks).value[blocks[i].rows[k].id] == blocks[i].rows[k].config
    decreases i
  {
    FirstBlock(decks, blocks, start);
    ChainedTail(blocks, start);
    if i > 0 {
      var d := WriteEntries(decks, blocks[0].rows, blocks[0].count).value;
      assert blocks[i] == blocks[1..][i - 1];
      WriteBlocksRow(d, blocks[1..], start + blocks[0].count, i - 1, k);
    } else {
      FirstBlockRow(decks, blocks, start, k);
    }
  }

  /** Row k of the first loop ends up in its folder, and the later loops,
      which write higher IDs only, leave it there. */
  lemma FirstBlockRow(decks: map<int, HpConfig>, blocks: seq<Block>, start: int, k: nat)
    requires Chained(blocks, start)
    requires forall key :: key in decks ==> key < start
    requires 0 < |blocks| && k < |blocks[0].rows|
    ensures WriteBlocks(decks, blocks).Success?
    ensures blocks[0].rows[k].id in WriteBlocks(decks, blocks).value
    ensures WriteBlocks(decks, blocks).value[blocks[0].rows[k].id] == blocks[0].rows[k].config
  {
    var b := blocks[0];
    FirstBlock(decks, blocks, start);
    ChainedTail(blocks, start);
    BlockRows(decks, b, start);
    WriteBlocksDomain(WriteEntries(decks, b.rows, b.count).value, blocks[1..], start + b.count);
  }

  /** A numbered loop adds exactly the folders start .. start + count - 1
      and leaves the others as they were. */
  lemma BlockKeys(decks: map<int, HpConfig>, b: Block, start: int)
    requires Numbered(b, start)
    ensures WriteEntries(decks, b.rows, b.count).Success?
    ensures WriteEntries(decks, b.rows, b.count).value.Keys == decks.Keys + Interval(start, start + b.count)
    ensures forall key :: key in decks && !(start <= key < start + b.count) ==>
      WriteEntries(decks, b.rows, b.count).value[key] == decks[key]
  {
    ConsecutiveKeys(decks, b.rows, start);
  }

  lemma EndTail(blocks: seq<Block>, start: int)
    requires |blocks| > 0
    ensures End(blocks, start) == End(blocks[1..], start + blocks[0].count)
  {
  }

  /** A numbered loop puts each of its rows into the folder named by its ID. */
  lemma BlockRows(decks: map<int, HpConfig>, b: Block, start: int)
    requires Numbered(b, start)
    ensures WriteEntries(decks, b.rows, b.count).Success?
    ensures forall k :: 0 <= k < |b.rows| ==>
      b.rows[k].id in WriteEntries(decks, b.rows, b.count).value
      && WriteEntries(decks, b.rows, b.count).value[b.rows[k].id] == b.rows[k].config
  {
    ConsecutiveRows(decks, b.rows, start);
  }

  /** A tier's loop writes all its rows, numbered from its start. */
  lemma TierNumbered(t: Tier)
    requires t.numModels == |Entries(t)|
    ensures Numbered(TierBlock(t), t.start)
  {
    TierIds(t);
  }

  /** The generator's three loops are chained from model 1 to num_dnn_folders. */
  lemma TierBlocksChained()
    ensures Chained(TierBlocks(), 1)
    ensures End(TierBlocks(), 1) == NumDnnFolders + 1
  {
    TierCounts();
    TierNumbered(OneLayer);
    TierNumbered(TwoLayers);
    TierNumbered(ThreeLayers);
    var bs := TierBlocks();
    assert bs[1..] == [TierBlock(TwoLayers), TierBlock(ThreeLayers)];
    assert bs[1..][1..] == [TierBlock(ThreeLayers)];
  }

  /** The three write loops succeed and write exactly one record into each
      of the folders 1 .. num_dnn_folders, so no tier overwrites another. */
  lemma GeneratedDomain()
    ensures GenerateDecks().Success?
    ensures GenerateDecks().value.Keys == Folders()
  {
    TierBlocksChained();
    WriteBlocksDomain(map[], TierBlocks(), 1);
  }

  /** Row k of the generator's loop i ends up in the folder named by its ID. */
  lemma GeneratedRow(i: nat, k: nat)
    requires i < |TierBlocks()| && k < |TierBlocks()[i].rows|
    ensures GenerateDecks().Success?
    ensures TierBlocks()[i].rows[k].id in GenerateDecks().value
    ensures GenerateDecks().value[TierBlocks()[i].rows[k].id] == TierBlocks()[i].rows[k].config
  {
    TierBlocksChained();
    WriteBlocksRow(map[], TierBlocks(), 1, i, k);
  }

  /** The folder of model start + k receives row k of its tier. */
  lemma GeneratedDeck(t: Tier, k: nat)
    requires IsTier(t) && k < t.numModels
    ensures GenerateDecks().Success? && t.start + k in GenerateDecks().value
    ensures GenerateDecks().value[t.start + k] == Entries(t)[k].config
  {
    var i := TierIndex(t);
    assert k < |Entries(t)| && Entries(t)[k].id == t.start + k by {
      TierCount(t);
      TierIds(t);
    }
    GeneratedRow(i, k);
  }

  /** The position of a tier among the generator's write loops. */
  function TierIndex(t: Tier): (i: nat)
    requires IsTier(t)
    ensures i < |TierBlocks()| && TierBlocks()[i] == TierBlock(t)
  {
    if t == OneLayer then 0 else if t == TwoLayers then 1 else 2
  }

  lemma TierCount(t: Tier)
    requires IsTier(t)
    ensures |Entries(t)| == t.numModels
  {
    TierCounts();
  }

  /** Which tier writes a folder, and at which row. */
  lemma FolderTier(id: int) returns (t: Tier, k: nat)
    requires id in Folders()
    ensures IsTier(t) && k < t.numModels && id == t.start + k
    ensures t.numLayers == if id < TwoLayers.start then 1 else if id < ThreeLayers.start then 2 else 3
  {
    if id < TwoLayers.start {
      t, k := OneLayer, id - OneLayer.start;
    } else if id < ThreeLayers.start {
      t, k := TwoLayers, id - TwoLayers.start;
    } else {
      t, k := ThreeLayers, id - ThreeLayers.start;
    }
  }

  /** Every folder receives a configuration that can be written and read
      back, with one layer width per hidden layer: one layer for models
      1 .. 9375, two for 9376 .. 18750 and three for 18751 .. 21875. */
  lemma GeneratedDeckWellFormed(id: int)
    requires id in Folders()
    ensures GenerateDecks().Success? && id in GenerateDecks().value
    ensures WellFormed(GenerateDecks().value[id])
    ensures |GenerateDecks().value[id].neurons| == GenerateDecks().value[id].numLayers
    ensures GenerateDecks().value[id].numLayers == if id < TwoLayers.start then 1 else if id < ThreeLayers.start then 2 else 3
  {
    var t, k := FolderTier(id);
    GeneratedDeck(t, k);
    TierCounts();
    TiersWidthsMatch(t);
    EntryWellFormed(t, k);
  }

  /** A file written from a well-formed configuration reads back as it. */
  lemma FileReadsBack(decks: map<int, HpConfig>, id: int)
    requires id in decks && WellFormed(decks[id])
    ensures id in Files(decks) && ParseRecord(Files(decks)[id]) == Success(decks[id])
  {
    RoundTrip(decks[id]);
  }

  /** Every generated hp_input_deck.txt parses back to the configuration it
      was written from. */
  lemma GeneratedFilesReadBack(id: int)
    requires id in Folders()
    ensures GenerateDecks().Success? && id in Files(GenerateDecks().value)
    ensures ParseRecord(Files(GenerateDecks().value)[id]) == Success(GenerateDecks().value[id])
  {
    GeneratedDeckWellFormed(id);
    FileReadsBack(GenerateDecks().value, id);
  }

  /** The model IDs the generator reads back as a self-test. */
  const CheckedIds: seq<int> := [1, 9376, 18751]

  /** Open and parse the record of each checked model, in order; the first
      missing file or unparsable record stops the check. */
  function SelfTest<T>(files: map<int, string>, ids: seq<int>, parse: string -> Result<T>): (r: Result<seq<T>>)
    ensures r.Success? ==> |r.value| == |ids|
  {
    if |ids| == 0 then Success([])
    else if ids[0] !in files then Failure(MissingFile)
    else
      var c :- parse(files[ids[0]]);
      var rest :- SelfTest(files, ids[1..], parse);
      Success([c] + rest)
  }

  /** A passing self-test found every checked file and returned what each
      record parses to. */
  lemma {:induction false} SelfTestParses<T>(files: map<int, string>, ids: seq<int>, parse: string -> Result<T>)
    requires SelfTest(files, ids, parse).Success?
    ensures forall i :: 0 <= i < |ids| ==> ids[i] in files && parse(files[ids[i]]) == Success(SelfTest(files, ids, parse).value[i])
  {
    if |ids| > 0 {
      var rest := SelfTest(files, ids[1..], parse);
      SelfTestParses(files, ids[1..], parse);
      forall i | 1 <= i < |ids|
        ensures ids[i] in files && parse(files[ids[i]]) == Success(SelfTest(files, ids, parse).value[i])
      {
        assert ids[i] == ids[1..][i - 1];
        assert SelfTest(files, ids, parse).value[i] == rest.value[i - 1];
      }
    }
  }

  /** A checked model without a file makes the self-test fail. */
  lemma {:induction false} SelfTestMissing<T>(files: map<int, string>, ids: seq<int>, parse: string -> Result<T>, i: nat)
    requires i < |ids| && ids[i] !in files
    ensures SelfTest(files, ids, parse).Failure?
  {
    if i > 0 && ids[0] in files && parse(files[ids[0]]).Success? {
      SelfTestMissing(files, ids[1..], parse, i - 1);
    }
  }

  /** A self-test over files that all exist and all parse returns the parsed values. */
  lemma {:induction false} SelfTestAll<T>(files: map<int, string>, ids: seq<int>, parse: string -> Result<T>, results: seq<T>)
    requires |results| == |ids|
    requires forall i :: 0 <= i < |ids| ==> ids[i] in files && parse(files[ids[i]]) == Success(results[i])
    ensures SelfTest(files, ids, parse) == Success(results)
  {
    if |ids| > 0 {
      SelfTestAll(files, ids[1..], parse, results[1..]);
      assert results == [results[0]] + results[1..];
    }
  }

  /** The configurations stored under a list of folders, in the order of the list. */
  function DecksAt(decks: map<int, HpConfig>, ids: seq<int>): (r: seq<HpConfig>)
    requires forall i :: 0 <= i < |ids| ==> ids[i] in decks
    ensures |r| == |ids| && forall i :: 0 <= i < |ids| ==> r[i] == decks[ids[i]]
  {
    seq(|ids|, i requires 0 <= i < |ids| => decks[ids[i]])
  }

  /** Checking folders whose configurations are well formed reads each back. */
  lemma SelfTestReadsBack(decks: map<int, HpConfig>, ids: seq<int>)
    requires forall i :: 0 <= i < |ids| ==> ids[i] in decks && WellFormed(decks[ids[i]])
    ensures SelfTest(Files(decks), ids, ParseRecord) == Success(DecksAt(decks, ids))
  {
    var results := DecksAt(decks, ids);
    forall i | 0 <= i < |ids|
      ensures ids[i] in Files(decks) && ParseRecord(Files(decks)[ids[i]]) == Success(results[i])
    {
      FileReadsBack(decks, ids[i]);
    }
    SelfTestAll(Files(decks), ids, ParseRecord, results);
  }

  /** Checking any list of generated folders finds every file and reads back the
      configuration each was written from, in the order of the list. */
  lemma SelfTestPasses(ids: seq<int>)
    requires forall i :: 0 <= i < |ids| ==> ids[i] in Folders()
    ensures GenerateDecks().Success?
    ensures forall i :: 0 <= i < |ids| ==> ids[i] in GenerateDecks().value
    ensures SelfTest(Files(GenerateDecks().value), ids, ParseRecord) == Success(DecksAt(GenerateDecks().value, ids))
  {
    GeneratedDomain();
    var decks := GenerateDecks().value;
    forall i | 0 <= i < |ids|
      ensures ids[i] in decks && WellFormed(decks[ids[i]])
    {
      GeneratedDeckWellFormed(ids[i]);
    }
    SelfTestReadsBack(decks, ids);
  }

  /** The checked IDs are the first folder of each tier. */
  lemma CheckedIdsAreTierStarts()
    ensures CheckedIds == [OneLayer.start, TwoLayers.start, ThreeLayers.start]
    ensures forall i :: 0 <= i < |CheckedIds| ==> CheckedIds[i] in Folders()
  {
  }

  /** The first row of a tier takes the first neuron list and the first
      value of every other list. */
  lemma FirstEntry(t: Tier)
    requires |t.neuronsList| > 0
    ensures |Entries(t)| > 0
    ensures Entries(t)[0] == Entry(t.start, HpConfig(t.numLayers, t.neuronsList[0], "0.0", "0.0", "1e-06", 100, 4))
  {
    ModelId(t, 0, 0, 0, 0, 0, 0);
  }

  /** The first folder of each tier holds the tier's first row. */
  lemma FirstDeck(t: Tier)
    requires IsTier(t)
    ensures GenerateDecks().Success? && t.start in GenerateDecks().value
    ensures GenerateDecks().value[t.start]
            == HpConfig(t.numLayers, t.neuronsList[0], "0.0", "0.0", "1e-06", 100, 4)
  {
    FirstEntry(t);
    var k: nat := 0;
    GeneratedDeck(t, k);
    assert t.start + k == t.start;
  }
}
