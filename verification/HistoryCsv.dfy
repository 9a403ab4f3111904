/** Export of history values to CSV and their import in batches of at most 1000. */
module HistoryCsv {
  import opened OpcUaTypes
  import opened HistoryRead
  import opened Csv

  const MAX_VALUES_PER_REQUEST := 1000

  const NO_VALUE := "---"

  /** The text conversions of the status code, the variant and the timestamp. */
  datatype Codec = Codec(
    showStatus: nat -> string,
    readStatus: string -> Option<nat>,
    showVariant: Variant -> string,
    readVariant: (bool, string) -> Option<Variant>,
    showTime: Timestamp -> string,
    readTime: string -> Option<Timestamp>)

  /** A value as it is imported: the variant may be missing. */
  datatype Imported = Imported(
    statusCode: nat,
    variant: Option<Variant>,
    sourceTimestamp: Option<Timestamp>,
    serverTimestamp: Option<Timestamp>)

  predicate LooksLikeArray(text: string) {
    text != "" && text[0] == '['
  }

  function ShowTimestamp(c: Codec, t: Option<Timestamp>): string {
    if t.None? then NO_VALUE else c.showTime(t.value)
  }

  function ExportRow(c: Codec, v: DataValue): Row {
    [c.showStatus(v.statusCode),
     if v.statusCode == 0 then c.showVariant(v.variant) else NO_VALUE,
     ShowTimestamp(c, v.sourceTimestamp),
     ShowTimestamp(c, v.serverTimestamp)]
  }

  function ReadTimestamp(c: Codec, text: string): Option<Option<Timestamp>> {
    if text == NO_VALUE then Some(None)
    else
      match c.readTime(text)
      case None => None
      case Some(t) => Some(Some(t))
  }

  /** Why an import stops: a value that cannot be converted, an exception of the tokenizer
      that nobody catches, or a field that is read although the row does not have it. */
  datatype Stop = BadValue | TokenizerException | MissingField

  datatype Reading<+T> = Got(value: T) | Stopped(stop: Stop)

  /** One CSV row as a value, field by field. */
  function ImportRow(c: Codec, row: Row): Reading<Imported> {
    if |row| < 1 then Stopped(MissingField)
    else if c.readStatus(row[0]).None? then Stopped(BadValue)
    else if |row| < 2 then Stopped(MissingField)
    else if row[1] != NO_VALUE && c.readVariant(LooksLikeArray(row[1]), row[1]).None? then Stopped(BadValue)
    else if |row| < 3 then Stopped(MissingField)
    else if ReadTimestamp(c, row[2]).None? then Stopped(BadValue)
    else if |row| < 4 then Stopped(MissingField)
    else if ReadTimestamp(c, row[3]).None? then Stopped(BadValue)
    else Got(Imported(
      c.readStatus(row[0]).value,
      if row[1] == NO_VALUE then None else c.readVariant(LooksLikeArray(row[1]), row[1]),
      ReadTimestamp(c, row[2]).value,
      ReadTimestamp(c, row[3]).value))
  }

  function ImportLine(c: Codec, line: string): Reading<Imported> {
    match ParseRow(line)
    case None => Stopped(TokenizerException)
    case Some(row) => ImportRow(c, row)
  }

  /** The values of a text up to its end, or what the first bad line stops it with. */
  function ImportAll(c: Codec, text: string): Reading<seq<Imported>>
    decreases |text|
  {
    match NextLine(text)
    case None => Got([])
    case Some((line, rest)) =>
      NextLineIsShorter(text);
      match ImportLine(c, line)
      case Stopped(stop) => Stopped(stop)
      case Got(v) => Prepend([v], ImportAll(c, rest))
  }

  function Prepend(values: seq<Imported>, rest: Reading<seq<Imported>>): Reading<seq<Imported>> {
    match rest
    case Stopped(stop) => rest
    case Got(vs) => Got(values + vs)
  }

  /** How sending a file ends. */
  datatype Ending = Written | Halted(stop: Stop) | Refused

  class HistoryWriter {
    const codec: Codec
    /** Whether the server accepts the last of the batches sent so far. */
    const accepts: seq<seq<Imported>> -> bool
    var csv: string
    var batches: seq<seq<Imported>>

    constructor (codec: Codec, accepts: seq<seq<Imported>> -> bool, file: string)
      ensures this.codec == codec && this.accepts == accepts && csv == file && batches == []
    {
      this.codec, this.accepts, csv, batches := codec, accepts, file, [];
    }

    /** Reads up to 1000 lines. */
    method ReadCsvLines() returns (stop: Option<Stop>, values: seq<Imported>)
      modifies this`csv
      ensures |values| <= MAX_VALUES_PER_REQUEST
      ensures stop.None? ==> ImportAll(codec, old(csv)) == Prepend(values, ImportAll(codec, csv))
      ensures stop.None? && values != [] ==> |csv| < |old(csv)| && NextLine(old(csv)).Some?
      ensures stop.None? && |values| < MAX_VALUES_PER_REQUEST ==> NextLine(csv).None?
      ensures stop.Some? ==> ImportAll(codec, old(csv)) == Stopped(stop.value)
    {
      values := [];
      var left := MAX_VALUES_PER_REQUEST;
      PrependNothing(ImportAll(codec, csv));
      while left > 0
        invariant left >= 0 && |values| + left == MAX_VALUES_PER_REQUEST
        invariant ImportAll(codec, old(csv)) == Prepend(values, ImportAll(codec, csv))
        invariant if values == [] then csv == old(csv) else |csv| < |old(csv)| && NextLine(old(csv)).Some?
      {
        var line := NextLine(csv);
        if line.None? {
          return None, values;
        }
        ImportStep(codec, csv);
        var v := ImportLine(codec, line.value.0);
        if v.Stopped? {
          return Some(v.stop), values;
        }
        csv := line.value.1;
        PrependTwice(values, [v.value], ImportAll(codec, csv));
        values := values + [v.value];
        left := left - 1;
      }
      stop := None;
    }

    /** Sends the whole file in batches. The loop ends for every file, also when the number
        of lines is a multiple of 1000. */
    method WriteCsv() returns (ending: Ending)
      modifies this`csv, this`batches
      requires batches == []
      ensures forall i :: 0 <= i < |batches| ==> 1 <= |batches[i]| <= MAX_VALUES_PER_REQUEST
      ensures forall i :: 0 <= i < |batches| - 1 ==> |batches[i]| == MAX_VALUES_PER_REQUEST
      ensures match ending
              case Written => ImportAll(codec, old(csv)) == Got(Flatten(batches)) && AllAccepted(accepts, batches)
              case Halted(stop) => ImportAll(codec, old(csv)) == Stopped(stop) && AllAccepted(accepts, batches)
              case Refused => !AllAccepted(accepts, batches)
    {
      ghost var all := ImportAll(codec, csv);
      PrependNothing(all);
      while true
        invariant Sent(all, batches, ImportAll(codec, csv), NextLine(csv).None?)
        invariant AllAccepted(accepts, batches)
        decreases |csv|
      {
        var stop, values := ReadCsvLines();
        if stop.Some? {
          return Halted(stop.value);
        }
        if |values| == 0 {
          PrependNothing(ImportAll(codec, csv));
          AllSent(all, batches);
          return Written;
        }
        SendOneMore(all, batches, values, ImportAll(codec, csv), NextLine(csv).None?);
        batches := batches + [values];
        AcceptOneMore(accepts, batches);
        if !accepts(batches) {
          return Refused;
        }
      }
    }
  }

  /** Of the values `all`, the batches sent and the values `rest` still to be read. */
  ghost predicate Sent(
    all: Reading<seq<Imported>>, batches: seq<seq<Imported>>, rest: Reading<seq<Imported>>, atEnd: bool)
  {
    && all == Prepend(Flatten(batches), rest)
    && (forall i :: 0 <= i < |batches| ==> 1 <= |batches[i]| <= MAX_VALUES_PER_REQUEST)
    && (forall i :: 0 <= i < |batches| - 1 ==> |batches[i]| == MAX_VALUES_PER_REQUEST)
    && (batches != [] && |batches[|batches| - 1]| < MAX_VALUES_PER_REQUEST ==> atEnd)
  }

  lemma SendOneMore(
    all: Reading<seq<Imported>>, batches: seq<seq<Imported>>, values: seq<Imported>,
    rest: Reading<seq<Imported>>, atEnd: bool)
    requires Sent(all, batches, Prepend(values, rest), false)
    requires 1 <= |values| <= MAX_VALUES_PER_REQUEST && (|values| < MAX_VALUES_PER_REQUEST ==> atEnd)
    ensures Sent(all, batches + [values], rest, atEnd)
  {
    FlattenSnoc(batches, values);
    PrependTwice(Flatten(batches), values, rest);
  }

  lemma AllSent(all: Reading<seq<Imported>>, batches: seq<seq<Imported>>)
    requires Sent(all, batches, Got([]), true)
    ensures all == Got(Flatten(batches))
  {
    assert Flatten(batches) + [] == Flatten(batches);
  }

  lemma AcceptOneMore(accepts: seq<seq<Imported>> -> bool, batches: seq<seq<Imported>>)
    requires batches != []
    ensures AllAccepted(accepts, batches) <==> AllAccepted(accepts, batches[..|batches| - 1]) && accepts(batches)
  {}

  ghost predicate AllAccepted(accepts: seq<seq<Imported>> -> bool, batches: seq<seq<Imported>>) {
    batches != [] ==> AllAccepted(accepts, batches[..|batches| - 1]) && accepts(batches)
  }

  lemma ImportStep(c: Codec, text: string)
    requires NextLine(text).Some?
    ensures var (line, rest) := NextLine(text).value;
            && |rest| < |text|
            && ImportAll(c, text) ==
               match ImportLine(c, line)
               case Stopped(stop) => Stopped(stop)
               case Got(v) => Prepend([v], ImportAll(c, rest))
  {
    NextLineIsShorter(text);
  }

  lemma PrependTwice(a: seq<Imported>, b: seq<Imported>, rest: Reading<seq<Imported>>)
    ensures Prepend(a, Prepend(b, rest)) == Prepend(a + b, rest)
  {
    if rest.Got? {
      assert a + (b + rest.value) == a + b + rest.value;
    }
  }

  lemma PrependNothing(rest: Reading<seq<Imported>>)
    ensures Prepend([], rest) == rest
  {
    if rest.Got? {
      assert [] + rest.value == rest.value;
    }
  }

  // ---------------------------------------------------------------------
  // Export, then import
  // ---------------------------------------------------------------------

  /** The conversions invert each other, and no timestamp reads like a missing value. */
  ghost predicate Inverse(c: Codec) {
    && (forall x: nat :: c.readStatus(c.showStatus(x)) == Some(x))
    && (forall v :: c.readVariant(LooksLikeArray(c.showVariant(v)), c.showVariant(v)) == Some(v))
    && (forall t :: c.showTime(t) != NO_VALUE && c.readTime(c.showTime(t)) == Some(t))
  }

  /** What the export is meant to keep: the value only where the status is good. */
  function Kept(v: DataValue): Imported {
    Imported(v.statusCode, if v.statusCode == 0 then Some(v.variant) else None, v.sourceTimestamp, v.serverTimestamp)
  }

  lemma TimestampRoundTrips(c: Codec, t: Option<Timestamp>)
    requires Inverse(c)
    ensures ReadTimestamp(c, ShowTimestamp(c, t)) == Some(t)
  {
    if t.Some? {
      var x := t.value;
      assert c.readTime(c.showTime(x)) == Some(x);
    }
  }

  /** A row is imported as what was exported exactly when a good value's text is not the
      marker for a missing value. */
  lemma RowImportsIff(c: Codec, v: DataValue)
    requires Inverse(c)
    ensures ImportRow(c, ExportRow(c, v)) == Got(Kept(v)) <==>
            (v.statusCode == 0 ==> c.showVariant(v.variant) != "---")
  {
    var row := ExportRow(c, v);
    assert c.readStatus(row[0]) == Some(v.statusCode);
    TimestampRoundTrips(c, v.sourceTimestamp);
    TimestampRoundTrips(c, v.serverTimestamp);
  }

  /** Field `j` of a row can be converted; a missing value has its own marker. */
  ghost predicate FieldConverts(c: Codec, row: Row, j: nat)
    requires j < |row|
  {
    match j
    case 0 => c.readStatus(row[0]).Some?
    case 1 => row[1] == "---" || c.readVariant(row[1] != "" && row[1][0] == '[', row[1]).Some?
    case 2 => row[2] == "---" || c.readTime(row[2]).Some?
    case 3 => row[3] == "---" || c.readTime(row[3]).Some?
    case _ => true
  }

  /** A row stops the import with a bad value if and only if one of its fields cannot be
      converted, and with a missing field if and only if all can and it has fewer than four.
      Otherwise status, variant, source and server timestamp come from the first four fields,
      in this order. */
  lemma RowStopsIff(c: Codec, row: Row)
    ensures ImportRow(c, row) == Stopped(BadValue) <==> exists j :: 0 <= j < |row| && !FieldConverts(c, row, j)
    ensures ImportRow(c, row) == Stopped(MissingField) <==>
            |row| < 4 && forall j :: 0 <= j < |row| ==> FieldConverts(c, row, j)
    ensures ImportRow(c, row) != Stopped(TokenizerException)
    ensures ImportRow(c, row).Got? ==>
              var v := ImportRow(c, row).value;
              && Some(v.statusCode) == c.readStatus(row[0])
              && v.variant == (if row[1] == "---" then None else c.readVariant(LooksLikeArray(row[1]), row[1]))
              && v.sourceTimestamp == (if row[2] == "---" then None else c.readTime(row[2]))
              && v.serverTimestamp == (if row[3] == "---" then None else c.readTime(row[3]))
  {
    if j :| 0 <= j < |row| && !FieldConverts(c, row, j) {
    }
    assert |row| > 0 ==> (FieldConverts(c, row, 0) <==> c.readStatus(row[0]).Some?);
    assert |row| > 1 ==> (FieldConverts(c, row, 1) <==>
             row[1] == NO_VALUE || c.readVariant(LooksLikeArray(row[1]), row[1]).Some?);
    assert |row| > 2 ==> (FieldConverts(c, row, 2) <==> ReadTimestamp(c, row[2]).Some?);
    assert |row| > 3 ==> (FieldConverts(c, row, 3) <==> ReadTimestamp(c, row[3]).Some?);
  }

  /** The tokenizer ends an import if and only if the line has a bad escape. */
  lemma LineStopsIff(c: Codec, line: string)
    ensures ImportLine(c, line) == Stopped(TokenizerException) <==> HasBadEscape(line)
  {
    if line != "" {
      TokensFailIff(line, "", false);
    }
    if ParseRow(line).Some? {
      RowStopsIff(c, ParseRow(line).value);
    }
  }

  /** Values whose rows survive the file: plain fields without line ends, short enough. */
  ghost predicate Exportable(c: Codec, v: DataValue) {
    var row := ExportRow(c, v);
    && PlainRow(row) && '\n' !in RenderRow(row) && |RenderRow(row)| < MAX_LINE_LEN
    && (v.statusCode == 0 ==> c.showVariant(v.variant) != NO_VALUE)
  }

  function ExportFile(c: Codec, values: seq<DataValue>): string {
    if values == [] then "" else RenderRow(ExportRow(c, values[0])) + "\n" + ExportFile(c, values[1..])
  }

  function KeptAll(values: seq<DataValue>): seq<Imported> {
    seq(|values|, i requires 0 <= i < |values| => Kept(values[i]))
  }

  lemma LineImports(c: Codec, v: DataValue)
    requires Inverse(c) && Exportable(c, v)
    ensures ImportLine(c, RenderRow(ExportRow(c, v))) == Got(Kept(v))
  {
    RowRoundTripsIff(ExportRow(c, v));
    RowImportsIff(c, v);
  }

  /** The line written for `v` is read back as one line and imports as `v`. */
  ghost predicate Survives(c: Codec, v: DataValue) {
    var line := RenderRow(ExportRow(c, v));
    '\n' !in line && |line| < MAX_LINE_LEN && ImportLine(c, line) == Got(Kept(v))
  }

  lemma FirstValueImports(c: Codec, v: DataValue, rest: string)
    requires Survives(c, v)
    ensures ImportAll(c, RenderRow(ExportRow(c, v)) + "\n" + rest) == Prepend([Kept(v)], ImportAll(c, rest))
  {
    var line := RenderRow(ExportRow(c, v));
    FirstLine(line, rest);
    ImportStep(c, line + "\n" + rest);
  }

  lemma {:induction false} SurvivorsImport(c: Codec, values: seq<DataValue>, k: nat)
    requires k <= |values| && forall i :: 0 <= i < |values| ==> Survives(c, values[i])
    ensures ImportAll(c, ExportFile(c, values[k..])) == Got(KeptAll(values[k..]))
    decreases |values| - k
  {
    if k == |values| {
      assert values[k..] == [];
    } else {
      SurvivorsImport(c, values, k + 1);
      assert values[k..][1..] == values[k + 1..];
      FirstValueImports(c, values[k], ExportFile(c, values[k + 1..]));
      assert KeptAll(values[k..]) == [Kept(values[k])] + KeptAll(values[k + 1..]);
    }
  }

  /** The exported file imports as exactly the exported values. */
  lemma ExportThenImport(c: Codec, values: seq<DataValue>)
    requires Inverse(c) && forall i :: 0 <= i < |values| ==> Exportable(c, values[i])
    ensures ImportAll(c, ExportFile(c, values)) == Got(KeptAll(values))
  {
    forall i | 0 <= i < |values| ensures Survives(c, values[i]) {
      LineImports(c, values[i]);
    }
    SurvivorsImport(c, values, 0);
    assert values[0..] == values;
  }

  lemma {:induction false} ExportFileSnoc(c: Codec, values: seq<DataValue>, v: DataValue)
    ensures ExportFile(c, values + [v]) == ExportFile(c, values) + RenderRow(ExportRow(c, v)) + "\n"
  {
    if values == [] {
      assert [] + [v] == [v] && [v][1..] == [];
      assert ExportFile(c, [v]) == RenderRow(ExportRow(c, v)) + "\n" + "";
    } else {
      assert (values + [v])[1..] == values[1..] + [v];
      ExportFileSnoc(c, values[1..], v);
    }
  }

  /** Writes one line for each value, as the history reader outputs them. */
  method WriteValues(c: Codec, values: seq<DataValue>) returns (file: string)
    ensures file == ExportFile(c, values)
  {
    file := "";
    for i := 0 to |values|
      invariant file == ExportFile(c, values[..i])
    {
      assert values[..i + 1] == values[..i] + [values[i]];
      ExportFileSnoc(c, values[..i], values[i]);
      file := file + RenderRow(ExportRow(c, values[i])) + "\n";
    }
    assert values[..|values|] == values;
  }

  /** Pipeline: the batches sent for an exported file concatenate to the exported values. */
  method ExportAndSend(c: Codec, values: seq<DataValue>) returns (batches: seq<seq<Imported>>)
    requires Inverse(c) && forall i :: 0 <= i < |values| ==> Exportable(c, values[i])
    ensures Flatten(batches) == KeptAll(values)
    ensures forall i :: 0 <= i < |batches| ==> 1 <= |batches[i]| <= 1000
    ensures forall i :: 0 <= i < |batches| - 1 ==> |batches[i]| == 1000
  {
    var file := WriteValues(c, values);
    var accepts := (sent: seq<seq<Imported>>) => true;
    var writer := new HistoryWriter(c, accepts, file);
    ExportThenImport(c, values);
    var ending := writer.WriteCsv();
    batches := writer.batches;
    AcceptingServer(accepts, batches);
  }

  lemma {:induction false} AcceptingServer(accepts: seq<seq<Imported>> -> bool, batches: seq<seq<Imported>>)
    requires forall sent :: accepts(sent)
    ensures AllAccepted(accepts, batches)
  {
    if batches != [] {
      AcceptingServer(accepts, batches[..|batches| - 1]);
    }
  }
}
