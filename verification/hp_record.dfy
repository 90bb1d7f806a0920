/** The hyperparameter record stored as hp_input_deck.txt in every model
    folder: seven "key = value" lines in a fixed order, written by the grid
    generator and read back positionally by the generator's self-test and by
    every training job. */
module HpRecord {
  import opened Outcomes
  import opened Text

  /** One model configuration. The three float hyperparameters are kept as
      the text str() produced for them; their float value is not modelled. */
  datatype HpConfig = HpConfig(
    numLayers: int,
    neurons: seq<int>,
    dropout: string,
    alpha: string,
    lr: string,
    epochs: int,
    batchSize: int)

  // The keys as written, each padded so that " = " lines up in column 14.
  const NumLayersKey: string := "num_layers   " + Assign
  const NeuronsKey: string := "neurons      " + Assign
  const DropoutKey: string := "dropout_value" + Assign
  const AlphaKey: string := "alpha_value  " + Assign
  const LrKey: string := "lr_values    " + Assign
  const EpochsKey: string := "epochs       " + Assign
  const BatchSizeKey: string := "batch_size   " + Assign

  /** The seven keys in the order they are written. */
  const Keys: seq<string> := [NumLayersKey, NeuronsKey, DropoutKey, AlphaKey, LrKey, EpochsKey, BatchSizeKey]

  /** A float field as str() prints it: non-empty, one line, no surrounding blanks. */
  predicate IsToken(t: string)
  {
    |t| > 0 && Trimmed(t) && '\n' !in t && '\r' !in t
  }

  /** What the round trip needs: at least one layer width, and float fields
      that str() could have produced. */
  predicate WellFormed(c: HpConfig)
  {
    |c.neurons| >= 1 && IsToken(c.dropout) && IsToken(c.alpha) && IsToken(c.lr)
  }

  function IntStrings(xs: seq<int>): (r: seq<string>)
    ensures |r| == |xs|
    ensures forall i :: 0 <= i < |xs| ==> r[i] == IntToString(xs[i])
  {
    if |xs| == 0 then [] else [IntToString(xs[0])] + IntStrings(xs[1..])
  }

  /** The neurons value: the widths joined by ", " (a single width for a
      one-layer model, str(neurons[0]) + ', ' + str(neurons[1]) ... otherwise). */
  function NeuronsText(neurons: seq<int>): string
  {
    Join(IntStrings(neurons), ", ")
  }

  /** The seven lines of a record, each starting with its key. */
  function RecordLines(c: HpConfig): (lines: seq<string>)
    ensures |lines| == 7 && forall i :: 0 <= i < 7 ==> Keys[i] <= lines[i]
  {
    [ NumLayersKey + IntToString(c.numLayers),
      NeuronsKey + NeuronsText(c.neurons),
      DropoutKey + c.dropout,
      AlphaKey + c.alpha,
      LrKey + c.lr,
      EpochsKey + IntToString(c.epochs),
      BatchSizeKey + IntToString(c.batchSize) ]
  }

  /** The file contents: the seven lines with '\n' between them and none after the last. */
  function WriteRecord(c: HpConfig): (text: string)
    ensures WellFormed(c) ==> ReadLines(text) == RecordLines(c)
  {
    ReadRecordLines(c);
    Join(RecordLines(c), "\n")
  }

  /** A written record reads back as seven lines, each starting with its key
      in the fixed order. */
  lemma RecordShape(c: HpConfig)
    requires WellFormed(c)
    ensures |ReadLines(WriteRecord(c))| == 7
    ensures forall i :: 0 <= i < 7 ==> Keys[i] <= ReadLines(WriteRecord(c))[i]
  {
  }

  // ---------------------------------------------------------------------------
  // reading

  /** hp_line_list[i], IndexError past the end. */
  function LineAt(lines: seq<string>, i: nat): Result<string>
  {
    if i < |lines| then Success(lines[i]) else Failure(IndexOutOfRange)
  }

  /** line.strip().split(" = ", 1)[1]: the text after the first " = " of the
      stripped line; the key in front of it is never looked at, and a line
      without " = " raises IndexError (MissingSeparator here). */
  function FieldValue(line: string): (r: Result<string>)
    ensures r.Success? <==> FindFrom(Strip(line), Assign, 0).Some?
    ensures r.Success? ==>
      var t := Strip(line);
      var k := FindFrom(t, Assign, 0).value;
      OccursAt(t, Assign, k) && (forall j :: 0 <= j < k ==> !OccursAt(t, Assign, j))
      && r.value == t[k + |Assign|..]
  {
    var parts := SplitFirst(Strip(line), Assign);
    if |parts| < 2 then Failure(MissingSeparator) else Success(parts[1])
  }

  /** [int(i) for i in items]: the first item int() rejects raises. */
  function ParseInts(items: seq<string>): (r: Result<seq<int>>)
    ensures r.Success? ==> |r.value| == |items|
    ensures r.Success? ==> forall i :: 0 <= i < |items| ==> ParseInt(items[i]) == Success(r.value[i])
  {
    if |items| == 0 then Success([])
    else
      match ParseInt(items[0])
      case Failure(e) => Failure(e)
      case Success(x) =>
        match ParseInts(items[1..])
        case Failure(e) => Failure(e)
        case Success(xs) => Success([x] + xs)
  }

  function IntField(lines: seq<string>, i: nat): (r: Result<int>)
    ensures i >= |lines| ==> r == Failure(IndexOutOfRange)
    ensures r.Success? ==> FieldValue(lines[i]).Success? && ParseInt(FieldValue(lines[i]).value) == r
  {
    var line :- LineAt(lines, i);
    var v :- FieldValue(line);
    ParseInt(v)
  }

  function TokenField(lines: seq<string>, i: nat): (r: Result<string>)
    ensures i >= |lines| ==> r == Failure(IndexOutOfRange)
    ensures i < |lines| ==> r == FieldValue(lines[i])
  {
    var line :- LineAt(lines, i);
    FieldValue(line)
  }

  /** The positional parse shared by the generator's self-test and the
      training job: lines 0..6 in order, each raising on the first problem. */
  function ParseRecord(text: string): (r: Result<HpConfig>)
    ensures |ReadLines(text)| < 7 ==> r.Failure?
  {
    var lines := ReadLines(text);
    var numLayers :- IntField(lines, 0);
    var neuronsLine :- LineAt(lines, 1);
    var neuronsText :- FieldValue(neuronsLine);
    var neurons :- ParseInts(SplitOn(neuronsText, ','));
    var dropout :- TokenField(lines, 2);
    var alpha :- TokenField(lines, 3);
    var lr :- TokenField(lines, 4);
    var epochs :- IntField(lines, 5);
    var batchSize :- IntField(lines, 6);
    Success(HpConfig(numLayers, neurons, dropout, alpha, lr, epochs, batchSize))
  }

  // ---------------------------------------------------------------------------
  // round trip

  function Blanked(parts: seq<string>): (r: seq<string>)
    ensures |r| == |parts|
    ensures forall i :: 0 <= i < |parts| ==> r[i] == " " + parts[i]
  {
    if |parts| == 0 then [] else [" " + parts[0]] + Blanked(parts[1..])
  }

  /** A blank in front of a ", "-joined list is the same text as the pieces,
      each with a blank in front, joined by ",". */
  lemma {:induction false} BlankJoin(parts: seq<string>)
    requires |parts| >= 1
    ensures " " + Join(parts, ", ") == Join(Blanked(parts), ",")
  {
    if |parts| > 1 {
      BlankJoin(parts[1..]);
      assert Blanked(parts)[1..] == Blanked(parts[1..]);
    }
  }

  /** "1000, 500, 250".split(",") gives "1000", " 500", " 250". */
  lemma SplitNeurons(xs: seq<int>)
    requires |xs| >= 1
    ensures SplitOn(NeuronsText(xs), ',') == [IntToString(xs[0])] + Blanked(IntStrings(xs[1..]))
  {
    var strs := IntStrings(xs);
    var pieces := [strs[0]] + Blanked(strs[1..]);
    if |xs| > 1 {
      BlankJoin(strs[1..]);
      assert strs[1..] == IntStrings(xs[1..]);
    } else {
      assert strs[1..] == IntStrings(xs[1..]);
    }
    assert Join(strs, ", ") == Join(pieces, ",");
    SplitJoin(pieces, ',');
  }

  /** When every item parses to the matching entry of xs, the list parses to xs. */
  lemma {:induction false} ParseIntsAll(items: seq<string>, xs: seq<int>)
    requires |items| == |xs|
    requires forall i :: 0 <= i < |items| ==> ParseInt(items[i]) == Success(xs[i])
    ensures ParseInts(items) == Success(xs)
  {
    if |items| > 0 {
      ParseIntsAll(items[1..], xs[1..]);
      assert [xs[0]] + xs[1..] == xs;
    }
  }

  lemma ParseNeurons(xs: seq<int>)
    requires |xs| >= 1
    ensures ParseInts(SplitOn(NeuronsText(xs), ',')) == Success(xs)
  {
    SplitNeurons(xs);
    var items := SplitOn(NeuronsText(xs), ',');
    forall i | 0 <= i < |items|
      ensures ParseInt(items[i]) == Success(xs[i])
    {
      if i == 0 {
        ParseIntToString(xs[0]);
      } else {
        assert items[i] == " " + IntToString(xs[i]);
        ParseBlankIntToString(xs[i]);
      }
    }
    ParseIntsAll(items, xs);
  }

  lemma KeyedLine(key: string, head: string, v: string)
    requires key == head + Assign && '=' !in head && |head| > 0 && !IsSpace(head[0])
    requires |v| > 0 && Trimmed(v)
    ensures FieldValue(key + v) == Success(v)
  {
    var line := key + v;
    assert line == head + Assign + v;
    assert Trimmed(line);
    StripKeepsTrimmed(line);
    SplitFirstAssign(head, v);
  }

  lemma NeuronsTextTrimmed(xs: seq<int>)
    requires |xs| >= 1
    ensures |NeuronsText(xs)| > 0 && Trimmed(NeuronsText(xs))
    ensures '\n' !in NeuronsText(xs) && '\r' !in NeuronsText(xs)
  {
    var strs := IntStrings(xs);
    JoinEnds(strs, ", ");
    JoinNoChar(strs, ", ", '\n');
    JoinNoChar(strs, ", ", '\r');
  }

  lemma {:induction false} JoinEnds(parts: seq<string>, sep: string)
    requires |parts| >= 1 && forall i :: 0 <= i < |parts| ==> |parts[i]| > 0
    ensures |Join(parts, sep)| > 0
    ensures Join(parts, sep)[0] == parts[0][0]
    ensures Join(parts, sep)[|Join(parts, sep)| - 1] == parts[|parts| - 1][|parts[|parts| - 1]| - 1]
  {
    if |parts| > 1 {
      JoinEnds(parts[1..], sep);
    }
  }

  lemma RecordLinesShape(c: HpConfig)
    requires WellFormed(c)
    ensures |RecordLines(c)| == 7 && NoneContain(RecordLines(c), '\n') && NoneContain(RecordLines(c), '\r')
    ensures RecordLines(c)[6] != ""
    ensures forall i :: 0 <= i < 7 ==> Keys[i] <= RecordLines(c)[i]
  {
    NeuronsTextTrimmed(c.neurons);
    var lines := RecordLines(c);
    KeyedLineShape(NumLayersKey, IntToString(c.numLayers));
    KeyedLineShape(NeuronsKey, NeuronsText(c.neurons));
    KeyedLineShape(DropoutKey, c.dropout);
    KeyedLineShape(AlphaKey, c.alpha);
    KeyedLineShape(LrKey, c.lr);
    KeyedLineShape(EpochsKey, IntToString(c.epochs));
    KeyedLineShape(BatchSizeKey, IntToString(c.batchSize));
    forall i | 0 <= i < 7
      ensures Keys[i] <= lines[i] && '\n' !in lines[i] && '\r' !in lines[i]
    {
      if i == 0 {} else if i == 1 {} else if i == 2 {} else if i == 3 {} else if i == 4 {} else if i == 5 {} else {}
    }
  }

  /** A key line starts with its key and, for a one-line value, is one line. */
  lemma KeyedLineShape(key: string, v: string)
    requires '\n' !in key && '\n' !in v && '\r' !in key && '\r' !in v
    ensures key <= key + v && '\n' !in key + v && '\r' !in key + v
  {
  }

  /** readlines() of a written record gives the seven written lines. */
  lemma ReadRecordLines(c: HpConfig)
    ensures WellFormed(c) ==> ReadLines(Join(RecordLines(c), "\n")) == RecordLines(c)
  {
    if WellFormed(c) {
      RecordLinesShape(c);
      ReadJoinedLines(RecordLines(c));
    }
  }

  lemma NumLayersField(c: HpConfig)
    ensures IntField(RecordLines(c), 0) == Success(c.numLayers)
  {
    KeyedLine(NumLayersKey, "num_layers   ", IntToString(c.numLayers));
    ParseIntToString(c.numLayers);
  }

  lemma NeuronsField(c: HpConfig)
    requires WellFormed(c)
    ensures FieldValue(RecordLines(c)[1]) == Success(NeuronsText(c.neurons))
    ensures ParseInts(SplitOn(NeuronsText(c.neurons), ',')) == Success(c.neurons)
  {
    NeuronsTextTrimmed(c.neurons);
    assert RecordLines(c)[1] == NeuronsKey + NeuronsText(c.neurons);
    KeyedLine(NeuronsKey, "neurons      ", NeuronsText(c.neurons));
    ParseNeurons(c.neurons);
  }

  lemma DropoutField(c: HpConfig)
    requires |c.dropout| > 0 && Trimmed(c.dropout)
    ensures TokenField(RecordLines(c), 2) == Success(c.dropout)
  {
    var lines := RecordLines(c);
    assert lines[2] == DropoutKey + c.dropout;
    KeyedLine(DropoutKey, "dropout_value", c.dropout);
  }

  lemma AlphaField(c: HpConfig)
    requires |c.alpha| > 0 && Trimmed(c.alpha)
    ensures TokenField(RecordLines(c), 3) == Success(c.alpha)
  {
    var lines := RecordLines(c);
    assert lines[3] == AlphaKey + c.alpha;
    KeyedLine(AlphaKey, "alpha_value  ", c.alpha);
  }

  lemma LrField(c: HpConfig)
    requires |c.lr| > 0 && Trimmed(c.lr)
    ensures TokenField(RecordLines(c), 4) == Success(c.lr)
  {
    var lines := RecordLines(c);
    assert lines[4] == LrKey + c.lr;
    KeyedLine(LrKey, "lr_values    ", c.lr);
  }

  lemma EpochsField(c: HpConfig)
    ensures IntField(RecordLines(c), 5) == Success(c.epochs)
  {
    KeyedLine(EpochsKey, "epochs       ", IntToString(c.epochs));
    ParseIntToString(c.epochs);
  }

  lemma BatchSizeField(c: HpConfig)
    ensures IntField(RecordLines(c), 6) == Success(c.batchSize)
  {
    KeyedLine(BatchSizeKey, "batch_size   ", IntToString(c.batchSize));
    ParseIntToString(c.batchSize);
  }

  /** Reading back a written record gives the configuration that was written. */
  lemma RoundTrip(c: HpConfig)
    requires WellFormed(c)
    ensures ParseRecord(WriteRecord(c)) == Success(c)
  {
    NumLayersField(c);
    NeuronsField(c);
    DropoutField(c);
    AlphaField(c);
    LrField(c);
    EpochsField(c);
    BatchSizeField(c);
  }
}
