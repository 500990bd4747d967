/**
  The query side of device_lib.py's GPU manager: the field list and command of
  `query_gpu`, and `parse`, which turns one line of
  `nvidia-smi --query-gpu=<fields> --format=csv,noheader` output into a record.
  The tool itself is not run: its output lines are an input.
*/
module GpuQuery {
  import opened Wrappers
  import opened Strings
  import opened Numbers
  import opened Comprehensions

  /** A value in a record: a number for the four numeric fields, text for every other field. */
  datatype Value = Num(n: int) | Text(s: string)

  /** One GPU's row, as the Python dict `parse` returns. */
  type Record = map<string, Value>

  /** The exceptions the modelled code can raise. */
  datatype Error =
    | MalformedNumber(field: string)  // ValueError from float() on a numeric piece
    | KeyMissing(key: string)         // KeyError from d[key]
    | ZeroDivision                    // ZeroDivisionError from a ratio
    | TypeMismatch                    // TypeError from sorted comparing a str key with a number
    | InvalidKey                      // the ValueError sort_by_cust raises for a bad key
    | NoDevice                        // IndexError from [0] on an empty sorted list

  type Outcome<T> = Result<T, Error>

  const IndexField := "index"
  const MemoryFree := "memory.free"
  const MemoryTotal := "memory.total"
  const PowerDraw := "power.draw"
  const PowerLimit := "power.limit"

  /** `numberic_args`: the fields whose pieces are converted to numbers. */
  const NumericFields: set<string> := {MemoryFree, MemoryTotal, PowerDraw, PowerLimit}

  /** The fields every query asks for, before the caller's own. */
  const BaseFields: seq<string> := [IndexField, "gpu_name", MemoryFree, MemoryTotal, PowerDraw, PowerLimit]

  /** The text nvidia-smi prints for a reading the board does not support. */
  const NotSupported := "Not Support"

  /** What a numeric field holds when its reading is not supported. */
  const Sentinel := 1

  /** The text `to_numberic` hands to float(): upper-cased, trimmed, every `MIB` and then every `W` removed. */
  function NumericText(v: string): (r: string)
    ensures 'W' !in r
  {
    RemoveAllChar(RemoveAll(Trim(Upper(v)), "MIB"), 'W');
    RemoveAll(RemoveAll(Trim(Upper(v)), "MIB"), "W")
  }

  /**
    `int(to_numberic(v))`, or None where float() raises ValueError: the integer
    digits of the literal the unit-free text spells, with its sign.
  */
  function ToNumber(v: string): (r: Option<int>)
    ensures r.None? <==> ParseFloat(NumericText(v)).None?
    ensures r.Some? ==> r.value == IntegerPart(ParseFloat(NumericText(v)).value)
  {
    match ParseFloat(NumericText(v))
    case None => None
    case Some(d) =>
      TruncateLiteral(d);
      Some(Truncate(RealValue(d)))
  }

  /** `process(k, v)`: the value `parse` stores for field `k` when its piece is `v`. */
  function ProcessField(k: string, v: string): (r: Outcome<Value>)
    ensures r.Ok? ==> (r.value.Num? <==> k in NumericFields)
    ensures r.Err? ==> k in NumericFields && r.error == MalformedNumber(k)
  {
    if k in NumericFields then
      if Contains(v, NotSupported) then Ok(Num(Sentinel))
      else match ToNumber(v)
        case Some(n) => Ok(Num(n))
        case None => Err(MalformedNumber(k))
    else
      Ok(Text(Trim(v)))
  }

  /**
    A numeric piece that does not mention `Not Support` and whose unit-free text
    holds, anywhere, a character that is neither one a literal is written with nor
    whitespace float() strips makes float() raise ValueError.
  */
  lemma OtherTextRaises(k: string, v: string, i: int)
    requires k in NumericFields && !Contains(v, NotSupported)
    requires 0 <= i < |NumericText(v)| && !NumberChar(NumericText(v)[i]) && !FloatSpace(NumericText(v)[i])
    ensures ProcessField(k, v) == Err(MalformedNumber(k))
  {
    OtherCharRefused(NumericText(v), i);
  }

  /** Every numeric field holds a number and every other field holds text: what `parse` produces. */
  predicate WellFormed(d: Record) {
    forall k :: k in d ==> (d[k].Num? <==> k in NumericFields)
  }

  /** A record as `query_gpu` returns it: well formed, with the device index present. */
  predicate IsDevice(d: Record) {
    WellFormed(d) && IndexField in d
  }

  /** `line.strip().split(',')`. */
  function Pieces(line: string): (r: seq<string>)
    ensures |r| >= 1
  {
    Split(Trim(line), ',')
  }

  function Min(a: nat, b: nat): nat {
    if a <= b then a else b
  }

  /** The outcome of `process(fields[i], pieces[i])` for each of the first `n` pairs of the zip. */
  function Converted(fields: seq<string>, pieces: seq<string>, n: nat): (r: seq<Outcome<Value>>)
    requires n <= |fields| && n <= |pieces|
    ensures |r| == n && forall i :: 0 <= i < n ==> r[i] == ProcessField(fields[i], pieces[i])
  {
    seq(n, i requires 0 <= i < n => ProcessField(fields[i], pieces[i]))
  }

  /** The names the first `n` pairs of the zip carry. */
  function ZipNames(fields: seq<string>, n: nat): set<string>
    requires n <= |fields|
  {
    set i | 0 <= i < n :: fields[i]
  }

  /** Each of the first `n` pieces converts under its name. */
  predicate AllConvert(fields: seq<string>, pieces: seq<string>, n: nat)
    requires n <= |fields| && n <= |pieces|
  {
    forall i :: 0 <= i < n ==> ProcessField(fields[i], pieces[i]).Ok?
  }

  /** `e` is the error of the first of the first `n` pieces that fails to convert. */
  predicate FirstFailure(fields: seq<string>, pieces: seq<string>, n: nat, e: Error)
    requires n <= |fields| && n <= |pieces|
  {
    exists i :: 0 <= i < n && ProcessField(fields[i], pieces[i]) == Err(e) &&
                AllConvert(fields, pieces, i)
  }

  /** The dict built from the first `n` pairs is built exactly when each pair converts; otherwise it raises the first failure. */
  lemma ZipOutcome(fields: seq<string>, pieces: seq<string>, n: nat)
    requires n <= |fields| && n <= |pieces|
    ensures var r := DictOf(fields[..n], Converted(fields, pieces, n));
      && (r.Ok? <==> AllConvert(fields, pieces, n))
      && (r.Err? ==> FirstFailure(fields, pieces, n, r.error))
  {
    DictOfOutcome(fields[..n], Converted(fields, pieces, n));
  }

  /** The dict built from the first `n` pairs has exactly their names as keys. */
  lemma ZipKeys(fields: seq<string>, pieces: seq<string>, n: nat)
    requires n <= |fields| && n <= |pieces|
    requires DictOf(fields[..n], Converted(fields, pieces, n)).Ok?
    ensures DictOf(fields[..n], Converted(fields, pieces, n)).value.Keys == ZipNames(fields, n)
  {
    var ks, vs := fields[..n], Converted(fields, pieces, n);
    DictOfKeys(ks, vs);
    assert forall i :: 0 <= i < n ==> ks[i] == fields[i];
    assert ZipNames(fields, n) == set i | 0 <= i < |ks| :: ks[i];
  }

  /**
    `parse(line, qargs)`: the dict comprehension over `zip(qargs, line.strip().split(','))`,
    which pairs as many names with pieces as both lists have. It raises exactly when
    a piece fails to convert, and then the first such failure; otherwise its keys are
    the first min(|fields|, |pieces|) names.
  */
  function Parse(line: string, fields: seq<string>): (r: Outcome<Record>)
    ensures var pieces, n := Pieces(line), Min(|fields|, |Pieces(line)|);
      && (r.Ok? <==> AllConvert(fields, pieces, n))
      && (r.Err? ==> FirstFailure(fields, pieces, n, r.error))
      && (r.Ok? ==> r.value.Keys == ZipNames(fields, n))
  {
    var pieces := Pieces(line);
    var n := Min(|fields|, |pieces|);
    var r := DictOf(fields[..n], Converted(fields, pieces, n));
    ZipOutcome(fields, pieces, n);
    if r.Ok? then ZipKeys(fields, pieces, n); r else r
  }

  /** Each name holds its own piece converted; where a name repeats, the last such piece. */
  lemma ParseValue(line: string, fields: seq<string>, i: nat)
    requires Parse(line, fields).Ok?
    requires LastOccurrence(fields[..Min(|fields|, |Pieces(line)|)], i)
    ensures fields[i] in Parse(line, fields).value
    ensures Ok(Parse(line, fields).value[fields[i]]) == ProcessField(fields[i], Pieces(line)[i])
  {
    var pieces := Pieces(line);
    var n := Min(|fields|, |pieces|);
    var ks, vs := fields[..n], Converted(fields, pieces, n);
    assert Parse(line, fields) == DictOf(ks, vs);
    DictOfLast(ks, vs, i);
    assert ks[i] == fields[i];
  }

  /**
    What a name's entry in a parsed record is: the trimmed piece for a text field,
    the sentinel for a numeric piece that mentions "Not Support" (without trying
    to read a number), and the piece's truncated reading otherwise.
  */
  lemma ParseFieldValue(line: string, fields: seq<string>, i: nat)
    requires Parse(line, fields).Ok?
    requires LastOccurrence(fields[..Min(|fields|, |Pieces(line)|)], i)
    ensures var d, k, v := Parse(line, fields).value, fields[i], Pieces(line)[i];
      && k in d
      && (k !in NumericFields ==> d[k] == Text(Trim(v)))
      && (k in NumericFields && Contains(v, NotSupported) ==> d[k] == Num(Sentinel))
      && (k in NumericFields && !Contains(v, NotSupported) ==> ToNumber(v).Some? && d[k] == Num(ToNumber(v).value))
  {
    ParseValue(line, fields, i);
  }

  /** Every entry of the dict built from the first `n` pairs comes from one of those pairs. */
  lemma PairEntry(fields: seq<string>, pieces: seq<string>, n: nat, k: string)
    requires n <= |fields| && n <= |pieces|
    requires DictOf(fields[..n], Converted(fields, pieces, n)).Ok?
    requires k in DictOf(fields[..n], Converted(fields, pieces, n)).value
    ensures exists i :: 0 <= i < n && fields[i] == k &&
                        ProcessField(k, pieces[i]) == Ok(DictOf(fields[..n], Converted(fields, pieces, n)).value[k])
  {
    var ks, vs := fields[..n], Converted(fields, pieces, n);
    DictOfSource(ks, vs, k);
    var i :| 0 <= i < n && ks[i] == k && vs[i] == Ok(DictOf(ks, vs).value[k]);
    assert fields[i] == k;
  }

  /** Every entry of a parsed record is some name paired with its piece converted. */
  lemma ParseEntry(line: string, fields: seq<string>, k: string)
    requires Parse(line, fields).Ok? && k in Parse(line, fields).value
    ensures exists i :: 0 <= i < Min(|fields|, |Pieces(line)|) && fields[i] == k &&
                        ProcessField(k, Pieces(line)[i]) == Ok(Parse(line, fields).value[k])
  {
    var pieces := Pieces(line);
    var n := Min(|fields|, |pieces|);
    assert Parse(line, fields) == DictOf(fields[..n], Converted(fields, pieces, n));
    PairEntry(fields, pieces, n, k);
  }

  /** Every parsed record is well formed: numbers exactly under the numeric names. */
  lemma ParseWellFormed(line: string, fields: seq<string>)
    requires Parse(line, fields).Ok?
    ensures WellFormed(Parse(line, fields).value)
  {
    forall k | k in Parse(line, fields).value
      ensures Parse(line, fields).value[k].Num? <==> k in NumericFields
    {
      ParseEntry(line, fields, k);
    }
  }

  /** The outcome of `parse(line, qargs)` for each line. */
  function ParsedEach(lines: seq<string>, fields: seq<string>): (r: seq<Outcome<Record>>)
    ensures |r| == |lines| && forall i :: 0 <= i < |lines| ==> r[i] == Parse(lines[i], fields)
  {
    seq(|lines|, i requires 0 <= i < |lines| => Parse(lines[i], fields))
  }

  /** `[parse(line, qargs) for line in lines]`. */
  function ParseLines(lines: seq<string>, fields: seq<string>): Outcome<seq<Record>> {
    ListOf(ParsedEach(lines, fields))
  }

  /** One record per line, in order, each parsed with the same fields; or the first failing line's error. */
  lemma ParseLinesSpec(lines: seq<string>, fields: seq<string>)
    ensures var r := ParseLines(lines, fields);
      && (r.Ok? <==> forall i :: 0 <= i < |lines| ==> Parse(lines[i], fields).Ok?)
      && (r.Ok? ==> |r.value| == |lines| && forall i :: 0 <= i < |lines| ==> Parse(lines[i], fields) == Ok(r.value[i]))
      && (r.Err? ==> exists i :: 0 <= i < |lines| && Parse(lines[i], fields) == Err(r.error) &&
                      forall j :: 0 <= j < i ==> Parse(lines[j], fields).Ok?)
  {
    ListOfSpec(ParsedEach(lines, fields));
  }

  /** The field list of `query_gpu(qargs)`: the base fields, then the caller's. */
  function QueryFields(extra: seq<string>): seq<string> {
    BaseFields + extra
  }

  const CommandPrefix := "nvidia-smi --query-gpu="
  const CommandSuffix := " --format=csv,noheader"

  /** The command line `query_gpu(qargs)` runs. */
  function QueryCommand(extra: seq<string>): (r: string)
    ensures CommandPrefix <= r && r[|r| - |CommandSuffix|..] == CommandSuffix
  {
    CommandPrefix + Join(QueryFields(extra), ',') + CommandSuffix
  }

  /** The text of the command between `--query-gpu=` and ` --format=csv,noheader`. */
  function QueryList(cmd: string): string
    requires |cmd| >= |CommandPrefix| + |CommandSuffix|
  {
    cmd[|CommandPrefix|..|cmd| - |CommandSuffix|]
  }

  /**
    The command asks for exactly the query's field list: the base fields and then
    the caller's, read back by splitting its `--query-gpu=` list at the commas
    (provided no caller field itself contains a comma).
  */
  lemma QueryCommandFields(extra: seq<string>)
    requires forall i :: 0 <= i < |extra| ==> ',' !in extra[i]
    ensures var cmd := QueryCommand(extra);
      && CommandPrefix <= cmd
      && cmd[|cmd| - |CommandSuffix|..] == CommandSuffix
      && Split(QueryList(cmd), ',') == BaseFields + extra
  {
    var fields := QueryFields(extra);
    var list := Join(fields, ',');
    var cmd := QueryCommand(extra);
    assert cmd == CommandPrefix + list + CommandSuffix;
    assert QueryList(cmd) == list;
    forall i | 0 <= i < |fields|
      ensures ',' !in fields[i]
    {
      if i >= |BaseFields| {
        assert fields[i] == extra[i - |BaseFields|];
      }
    }
    SplitJoin(fields, ',');
  }

  /** `query_gpu(qargs)` given the lines the command printed. */
  function QueryGpu(extra: seq<string>, output: seq<string>): (r: Outcome<seq<Record>>)
    ensures r.Ok? <==> forall i :: 0 <= i < |output| ==> Parse(output[i], BaseFields + extra).Ok?
    ensures r.Ok? ==> |r.value| == |output| &&
                      forall i :: 0 <= i < |output| ==> Parse(output[i], BaseFields + extra) == Ok(r.value[i])
  {
    ParseLinesSpec(output, QueryFields(extra));
    ParseLines(output, QueryFields(extra))
  }

  /**
    `query_gpu` returns one record per output line, in output order, each parsed
    with the base fields followed by the caller's; every record is a device record.
    It raises the first line's error when a line fails to parse.
  */
  lemma QueryGpuSpec(extra: seq<string>, output: seq<string>)
    ensures var r, fields := QueryGpu(extra, output), QueryFields(extra);
      && fields == BaseFields + extra
      && (r.Ok? <==> forall i :: 0 <= i < |output| ==> Parse(output[i], fields).Ok?)
      && (r.Ok? ==> |r.value| == |output|)
      && (r.Ok? ==> forall i :: 0 <= i < |output| ==> Parse(output[i], fields) == Ok(r.value[i]))
      && (r.Ok? ==> forall i :: 0 <= i < |output| ==> IsDevice(r.value[i]))
      && (r.Err? ==> exists i :: 0 <= i < |output| && Parse(output[i], fields) == Err(r.error) &&
                      forall j :: 0 <= j < i ==> Parse(output[j], fields).Ok?)
  {
    var fields := QueryFields(extra);
    ParseLinesSpec(output, fields);
    if QueryGpu(extra, output).Ok? {
      forall i | 0 <= i < |output|
        ensures IsDevice(QueryGpu(extra, output).value[i])
      {
        ParseHasIndex(output[i], fields);
      }
    }
  }

  /** The first field of every query is `index`, and every line yields at least one pair, so each record has an index. */
  lemma ParseHasIndex(line: string, fields: seq<string>)
    requires fields != [] && fields[0] == IndexField
    requires Parse(line, fields).Ok?
    ensures IsDevice(Parse(line, fields).value)
  {
    var n := Min(|fields|, |Pieces(line)|);
    ParseWellFormed(line, fields);
    assert fields[0] in ZipNames(fields, n);
  }
}
