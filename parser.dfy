/**
 * misc.Parser: the loader that builds the architecture, the operation list,
 * the two graphs and alpha from the input files. The model starts from lines
 * already split into whitespace-separated numeric tokens: a line reader hands
 * them out one at a time (null once the file is exhausted), and each parse
 * method either completes or ends with the exception it throws. The functions
 * say what a file reads to; the methods of `Parser` are the loops of the
 * source, proved to compute them.
 */
module Parsing {
  import opened JavaLang
  import opened Locations
  import opened OperationSizes
  import opened Operations
  import opened Graphs
  import opened Architectures

  /** One whitespace-separated field of a line, as the number parsers see it:
      an integer literal, or a literal with a fractional part. Literals are in
      canonical decimal form (no sign but a leading '-', no leading zeros). */
  datatype Token = Whole(n: int) | Fraction(r: real)

  type Row = seq<Token>

  /** The exception a parse method ends with. */
  datatype Failure =
    | NullLine          // readLine() gave null and the line was dereferenced
    | MissingField      // strings[k] past the end of the split line
    | NumberFormat      // a token Integer.parseInt (or split("\\s*")'s first character) refuses
    | IndexOutOfBounds  // List.get or Vector.get outside the list
    | NegativeCapacity  // new Vector(n) with n < 0
    | NullField         // the architecture or the operation list is still null

  const INT_MIN: int := -0x8000_0000
  const INT_MAX: int := 0x7fff_ffff

  /** `Integer.parseInt` of one token. */
  function ParseInt(t: Token): (r: Result<int, Failure>)
    ensures r.Ok? <==> t.Whole? && INT_MIN <= t.n <= INT_MAX
    ensures r.Ok? ==> r.value == t.n
  {
    if t.Whole? && INT_MIN <= t.n <= INT_MAX then Ok(t.n) else Err(NumberFormat)
  }

  /** `Double.parseDouble` of one token (doubles are read as exact reals). */
  function ParseDouble(t: Token): real
  {
    match t
    case Whole(n) => n as real
    case Fraction(r) => r
  }

  /** `Integer.parseInt(strings[k])`. A blank line splits into one empty
      field, so its field 0 exists and fails to parse. */
  function IntField(row: Row, k: nat): Result<int, Failure>
  {
    if k < |row| then ParseInt(row[k]) else if k == 0 then Err(NumberFormat) else Err(MissingField)
  }

  /** The first `k` fields of a row parsed as ints, left to right: the first
      field that fails decides the exception. */
  function IntFields(row: Row, k: nat): (r: Result<seq<int>, Failure>)
    ensures r.Ok? <==> k <= |row| && forall j :: 0 <= j < k ==> ParseInt(row[j]).Ok?
    ensures r.Ok? ==> |r.value| == k && forall j :: 0 <= j < k ==> r.value[j] == row[j].n
  {
    if k == 0 then Ok([])
    else
      var front :- IntFields(row, k - 1);
      var last :- IntField(row, k - 1);
      Ok(front + [last])
  }

  /** `readLine()` at position `pos`, dereferenced: the line, or the null it trips on. */
  function Line(lines: seq<Row>, pos: nat): Result<Row, Failure>
  {
    if pos < |lines| then Ok(lines[pos]) else Err(NullLine)
  }

  /** A line read and split, with its first `k` fields parsed as ints. */
  function Fields(lines: seq<Row>, pos: nat, k: nat): Result<seq<int>, Failure>
  {
    var line :- Line(lines, pos);
    IntFields(line, k)
  }

  /** What a run of rows reads to: the values, and the position after them. */
  type Reading<T> = Result<(seq<T>, nat), Failure>

  /** `front` followed by what the rest of a run reads to. */
  function Prefixed<T>(front: seq<T>, r: Reading<T>): Reading<T>
  {
    if r.Ok? then Ok((front + r.value.0, r.value.1)) else r
  }

  /** The values of a run, or its exception. */
  function Values<T>(r: Reading<T>): Result<seq<T>, Failure>
  {
    if r.Ok? then Ok(r.value.0) else Err(r.error)
  }

  lemma PrefixedNothing<T>(r: Reading<T>, front: seq<T>, pos: nat)
    ensures Prefixed([], r) == r
    ensures Prefixed(front, Ok(([], pos))) == Ok((front, pos))
  {
    if r.Ok? {
      assert [] + r.value.0 == r.value.0;
    }
    assert front + [] == front;
  }

  lemma PrefixedTwice<T>(a: seq<T>, b: seq<T>, r: Reading<T>)
    ensures Prefixed(a, Prefixed(b, r)) == Prefixed(a + b, r)
  {
    if r.Ok? {
      assert a + (b + r.value.0) == (a + b) + r.value.0;
    }
  }

  // ----- parseLocations -----

  /** One row of `parseLocations`: token 0 as x, token 1 as y. */
  function LocationRow(row: Row): (r: Result<Location, Failure>)
    ensures r.Ok? <==> |row| >= 2 && ParseInt(row[0]).Ok? && ParseInt(row[1]).Ok?
    ensures r.Ok? ==> r.value == Location(row[0].n, row[1].n)
  {
    var x :- IntField(row, 0);
    var y :- IntField(row, 1);
    Ok(Location(x, y))
  }

  /** `n` location rows from position `pos`, in order. */
  function LocationRows(lines: seq<Row>, pos: nat, n: nat): (r: Reading<Location>)
    ensures r.Ok? ==> |r.value.0| == n && r.value.1 == pos + n
    decreases n
  {
    if n == 0 then Ok(([], pos))
    else
      var line :- Line(lines, pos);
      var l :- LocationRow(line);
      var rest :- LocationRows(lines, pos + 1, n - 1);
      Ok(([l] + rest.0, rest.1))
  }

  /** `parseLocations(reader, num_locations)`: the Vector's capacity must not be negative. */
  function ReadLocations(lines: seq<Row>, pos: nat, count: int): Reading<Location>
  {
    if count < 0 then Err(NegativeCapacity) else LocationRows(lines, pos, count)
  }

  /** One row further into a run of location rows. */
  lemma LocationRowsStep(lines: seq<Row>, pos: nat, n: nat, front: seq<Location>)
    requires n > 0
    ensures Prefixed(front, LocationRows(lines, pos, n)) ==
      if pos >= |lines| then Err(NullLine)
      else if LocationRow(lines[pos]).Err? then Err(LocationRow(lines[pos]).error)
      else Prefixed(front + [LocationRow(lines[pos]).value], LocationRows(lines, pos + 1, n - 1))
  {
    if pos < |lines| && LocationRow(lines[pos]).Ok? {
      PrefixedTwice(front, [LocationRow(lines[pos]).value], LocationRows(lines, pos + 1, n - 1));
    }
  }

  /** Row `i` is there and holds a location. */
  predicate LocationRowOk(lines: seq<Row>, i: nat)
  {
    i < |lines| && LocationRow(lines[i]).Ok?
  }

  /** `registry` is what rows `from`, `from + 1`, ... read to, one location each. */
  predicate RegistryAt(lines: seq<Row>, from: nat, registry: seq<Location>)
  {
    && (|registry| > 0 ==> from + |registry| <= |lines|)
    && forall k :: 0 <= k < |registry| ==> LocationRow(lines[from + k]) == Ok(registry[k])
  }

  /** Entry k of a run of location rows is what row pos + k reads to. */
  lemma {:induction false} LocationRowsPointwise(lines: seq<Row>, pos: nat, n: nat)
    requires LocationRows(lines, pos, n).Ok?
    ensures RegistryAt(lines, pos, LocationRows(lines, pos, n).value.0)
    decreases n
  {
    if n > 0 {
      LocationRowsPointwise(lines, pos + 1, n - 1);
      var rest := LocationRows(lines, pos + 1, n - 1).value.0;
      var all := LocationRows(lines, pos, n).value.0;
      assert all == [LocationRow(lines[pos]).value] + rest;
      forall k | 0 <= k < n
        ensures LocationRow(lines[pos + k]) == Ok(all[k])
      {
        if k == 0 {
          assert all[k] == LocationRow(lines[pos]).value;
        } else {
          assert all[k] == rest[k - 1];
          assert pos + k == pos + 1 + (k - 1);
        }
      }
      assert |all| == n;
      assert RegistryAt(lines, pos, all);
    }
  }

  /** When all `n` rows hold a location, the run reads to a list. */
  lemma {:induction false} LocationRowsComplete(lines: seq<Row>, pos: nat, n: nat)
    requires forall i :: pos <= i < pos + n ==> LocationRowOk(lines, i)
    ensures LocationRows(lines, pos, n).Ok?
    decreases n
  {
    if n > 0 {
      LocationRowsComplete(lines, pos + 1, n - 1);
      assert LocationRowOk(lines, pos);
    }
  }

  /** The location rows read to a list exactly when every one of the `n` rows
      is there and holds two ints, and then entry k is row pos + k. */
  lemma LocationRowsMeaning(lines: seq<Row>, pos: nat, n: nat)
    ensures LocationRows(lines, pos, n).Ok? <==> forall i :: pos <= i < pos + n ==> LocationRowOk(lines, i)
    ensures LocationRows(lines, pos, n).Ok? ==> RegistryAt(lines, pos, LocationRows(lines, pos, n).value.0)
  {
    if LocationRows(lines, pos, n).Ok? {
      LocationRowsPointwise(lines, pos, n);
      var all := LocationRows(lines, pos, n).value.0;
      assert |all| == n;
      forall i | pos <= i < pos + n
        ensures LocationRowOk(lines, i)
      {
        var k := i - pos;
        assert LocationRow(lines[pos + k]) == Ok(all[k]);
      }
    } else if forall i :: pos <= i < pos + n ==> LocationRowOk(lines, i) {
      LocationRowsComplete(lines, pos, n);
    }
  }

  /** A registry read with a count that is not negative has that many entries, row by row. */
  lemma RegistryRead(lines: seq<Row>, pos: nat, count: int)
    requires ReadLocations(lines, pos, count).Ok?
    ensures var (registry, next) := ReadLocations(lines, pos, count).value;
      count >= 0 && |registry| == count && next == pos + count && RegistryAt(lines, pos, registry)
  {
    LocationRowsMeaning(lines, pos, count);
  }

  // ----- parseArchFile -----

  /** The seven counts at the head of an architecture file. */
  datatype Counts = Counts(rows: int, columns: int, inputs: int, outputs: int,
                           sensors: int, detectors: int, heaters: int)

  /** Lines 1 to 3 of `parseArchFile`: rows then columns, the input and output
      counts, then the sensor, detector and heater counts. */
  function ReadCounts(lines: seq<Row>, pos: nat): (r: Result<Counts, Failure>)
    ensures r.Ok? ==>
      && pos + 2 < |lines| && |lines[pos]| >= 2 && |lines[pos + 1]| >= 2 && |lines[pos + 2]| >= 3
      && ParseInt(lines[pos][0]).Ok? && ParseInt(lines[pos][1]).Ok?
      && ParseInt(lines[pos + 1][0]).Ok? && ParseInt(lines[pos + 1][1]).Ok?
      && ParseInt(lines[pos + 2][0]).Ok? && ParseInt(lines[pos + 2][1]).Ok? && ParseInt(lines[pos + 2][2]).Ok?
      && r.value == Counts(lines[pos][0].n, lines[pos][1].n, lines[pos + 1][0].n, lines[pos + 1][1].n,
                           lines[pos + 2][0].n, lines[pos + 2][1].n, lines[pos + 2][2].n)
  {
    var dims :- Fields(lines, pos, 2);
    var io :- Fields(lines, pos + 1, 2);
    var special :- Fields(lines, pos + 2, 3);
    Ok(Counts(dims[0], dims[1], io[0], io[1], special[0], special[1], special[2]))
  }

  /** The five registries, back to back from `pos`: inputs, outputs, sensors,
      detectors, heaters. */
  function ReadRegistries(lines: seq<Row>, pos: nat, c: Counts): Result<(Architecture, nat), Failure>
  {
    var inputs :- ReadLocations(lines, pos, c.inputs);
    var outputs :- ReadLocations(lines, inputs.1, c.outputs);
    var sensors :- ReadLocations(lines, outputs.1, c.sensors);
    var detectors :- ReadLocations(lines, sensors.1, c.detectors);
    var heaters :- ReadLocations(lines, detectors.1, c.heaters);
    Ok((Architecture(c.rows, c.columns, inputs.0, outputs.0, sensors.0, detectors.0, heaters.0), heaters.1))
  }

  /** `parseArchFile`. */
  function ReadArchitecture(lines: seq<Row>, pos: nat): Result<(Architecture, nat), Failure>
  {
    var counts :- ReadCounts(lines, pos);
    ReadRegistries(lines, pos + 3, counts)
  }

  /** Each registry holds as many entries as its count says, read from the
      rows right after the previous registry. */
  lemma RegistriesLayout(lines: seq<Row>, pos: nat, c: Counts)
    requires ReadRegistries(lines, pos, c).Ok?
    ensures var (a, next) := ReadRegistries(lines, pos, c).value;
      var o := pos + |a.inputs|;
      var s := o + |a.outputs|;
      var d := s + |a.sensors|;
      var h := d + |a.detectors|;
      && a.rows == c.rows && a.columns == c.columns
      && |a.inputs| == c.inputs && |a.outputs| == c.outputs && |a.sensors| == c.sensors
      && |a.detectors| == c.detectors && |a.heaters| == c.heaters
      && RegistryAt(lines, pos, a.inputs) && RegistryAt(lines, o, a.outputs) && RegistryAt(lines, s, a.sensors)
      && RegistryAt(lines, d, a.detectors) && RegistryAt(lines, h, a.heaters)
      && next == h + |a.heaters|
  {
    var inputs := ReadLocations(lines, pos, c.inputs).value;
    RegistryRead(lines, pos, c.inputs);
    var outputs := ReadLocations(lines, inputs.1, c.outputs).value;
    RegistryRead(lines, inputs.1, c.outputs);
    var sensors := ReadLocations(lines, outputs.1, c.sensors).value;
    RegistryRead(lines, outputs.1, c.sensors);
    var detectors := ReadLocations(lines, sensors.1, c.detectors).value;
    RegistryRead(lines, sensors.1, c.detectors);
    RegistryRead(lines, detectors.1, c.heaters);
  }

  /** The order the architecture file is read in: the first token of line 1
      is the row count and the second the column count; lines 2 and 3 give
      the registry sizes; the registries follow from line 4 in that order. */
  lemma ArchitectureReadOrder(lines: seq<Row>, pos: nat)
    requires ReadArchitecture(lines, pos).Ok?
    ensures ReadCounts(lines, pos).Ok?
    ensures var (a, next) := ReadArchitecture(lines, pos).value;
      var o := pos + 3 + |a.inputs|;
      var s := o + |a.outputs|;
      var d := s + |a.sensors|;
      var h := d + |a.detectors|;
      && a.rows == lines[pos][0].n && a.columns == lines[pos][1].n
      && |a.inputs| == lines[pos + 1][0].n && |a.outputs| == lines[pos + 1][1].n
      && |a.sensors| == lines[pos + 2][0].n && |a.detectors| == lines[pos + 2][1].n
      && |a.heaters| == lines[pos + 2][2].n
      && RegistryAt(lines, pos + 3, a.inputs) && RegistryAt(lines, o, a.outputs) && RegistryAt(lines, s, a.sensors)
      && RegistryAt(lines, d, a.detectors) && RegistryAt(lines, h, a.heaters)
      && next == h + |a.heaters|
  {
    RegistriesLayout(lines, pos + 3, ReadCounts(lines, pos).value);
  }

  // ----- parseOpsFile -----

  /** The kind-independent state of a created operation (None for null). */
  datatype OpRecord = OpRecord(id: int, kind: Kind, importance: real, reservoir: int,
                               size: Option<OperationSize>, placement: Option<Location>)

  function Snapshot(op: Operation?): Option<OpRecord>
    reads op
  {
    if op == null then None
    else Some(OpRecord(op.id, op.kind, op.importance, op.reservoir, op.size, op.placement))
  }

  /** The most significant decimal digit. */
  function LeadingDigit(n: nat): (d: nat)
    ensures d < 10
  {
    if n < 10 then n else LeadingDigit(n / 10)
  }

  /** It is the value of the first character of the number's text. */
  lemma {:induction false} LeadingDigitIsFirstCharacter(n: nat)
    ensures LeadingDigit(n) == DigitValue(NatToString(n)[0])
  {
    if n >= 10 {
      LeadingDigitIsFirstCharacter(n / 10);
      assert NatToString(n)[0] == NatToString(n / 10)[0];
    }
  }

  /** The operation count of `parseOpsFile`: `split("\\s*")` cuts the trimmed
      first line into single characters and only the first is parsed, so the
      count is the first digit of the first token (a blank line or a leading
      '-' does not parse). */
  function OperationCount(header: Row): Result<nat, Failure>
  {
    if |header| == 0 then Err(NumberFormat)
    else match header[0]
      case Whole(n) => if n >= 0 then Ok(LeadingDigit(n)) else Err(NumberFormat)
      case Fraction(r) => if r >= 0.0 then Ok(LeadingDigit(r.Floor)) else Err(NumberFormat)
  }

  /** The registry an Input (code 1) or Output (code 2) takes its placement from. */
  function Reservoirs(arch: Architecture, code: int): seq<Location>
  {
    if code == 1 then arch.inputs else arch.outputs
  }

  /** One row of `parseOpsFile`, for the operation with ID `id`: the operation
      it creates, or None for the null an unknown type code appends. An
      Input/Output is 1x1 and placed at its reservoir's cell; a Mix is 2x2
      with the given importance; codes 4 to 9 take `footprint` (their classes
      are outside the model). */
  function OperationRow(row: Row, id: int, arch: Option<Architecture>, footprint: Kind -> Option<OperationSize>)
    : Result<Option<OpRecord>, Failure>
  {
    var code :- IntField(row, 0);
    if code == 1 || code == 2 then
      var res :- IntField(row, 1);
      if arch.None? then Err(NullField)
      else if !(1 <= res <= |Reservoirs(arch.value, code)|) then Err(IndexOutOfBounds)
      else
        var kind := if code == 1 then Input else Output;
        Ok(Some(OpRecord(id, kind, 0.0, res, Some(OperationSize(1, 1)), Some(Reservoirs(arch.value, code)[res - 1]))))
    else if code == 3 then
      if |row| < 2 then Err(MissingField)
      else Ok(Some(OpRecord(id, Mix, ParseDouble(row[1]), 0, Some(OperationSize(2, 2)), None)))
    else if 4 <= code <= 9 then
      var kind := KindOf(code).value;
      Ok(Some(OpRecord(id, kind, 0.0, 0, footprint(kind), None)))
    else Ok(None)
  }

  /** What a well-formed operation row creates, and when a row is well formed. */
  lemma OperationRowMeaning(row: Row, id: int, arch: Option<Architecture>, footprint: Kind -> Option<OperationSize>)
    ensures var r := OperationRow(row, id, arch, footprint);
      r.Ok? <==>
        && |row| > 0 && ParseInt(row[0]).Ok?
        && (row[0].n in {1, 2} ==> |row| > 1 && ParseInt(row[1]).Ok? && arch.Some?
                                   && 1 <= row[1].n <= |Reservoirs(arch.value, row[0].n)|)
        && (row[0].n == 3 ==> |row| > 1)
    ensures var r := OperationRow(row, id, arch, footprint);
      r.Ok? ==>
        && (r.value.Some? <==> 1 <= row[0].n <= 9)
        && (r.value.Some? ==> var op := r.value.value;
              && op.id == id && Code(op.kind) == row[0].n
              && (IsIO(op.kind) ==> op.reservoir == row[1].n && op.size == Some(OperationSize(1, 1))
                                    && op.placement == Some(Reservoirs(arch.value, row[0].n)[row[1].n - 1]))
              && (op.kind == Mix ==> op.importance == ParseDouble(row[1]) && op.size == Some(OperationSize(2, 2)))
              && (!IsIO(op.kind) ==> op.placement == None))
  {
  }

  /** The operation a row creates has the ID it is given. */
  lemma OperationRowId(row: Row, id: int, arch: Option<Architecture>, footprint: Kind -> Option<OperationSize>)
    requires OperationRow(row, id, arch, footprint).Ok? && OperationRow(row, id, arch, footprint).value.Some?
    ensures OperationRow(row, id, arch, footprint).value.value.id == id
  {
  }

  /** `n` operation rows from position `pos`, the first with ID `id`. */
  function OperationRows(lines: seq<Row>, pos: nat, id: int, n: nat, arch: Option<Architecture>,
                         footprint: Kind -> Option<OperationSize>): (r: Reading<Option<OpRecord>>)
    ensures r.Ok? ==> |r.value.0| == n && r.value.1 == pos + n
    decreases n
  {
    if n == 0 then Ok(([], pos))
    else
      var line :- Line(lines, pos);
      var op :- OperationRow(line, id, arch, footprint);
      var rest :- OperationRows(lines, pos + 1, id + 1, n - 1, arch, footprint);
      Ok(([op] + rest.0, rest.1))
  }

  /** One row further into a run of operation rows. */
  lemma OperationRowsStep(lines: seq<Row>, pos: nat, id: int, n: nat, arch: Option<Architecture>,
                          footprint: Kind -> Option<OperationSize>, front: seq<Option<OpRecord>>)
    requires n > 0
    ensures Prefixed(front, OperationRows(lines, pos, id, n, arch, footprint)) ==
      if pos >= |lines| then Err(NullLine)
      else if OperationRow(lines[pos], id, arch, footprint).Err? then Err(OperationRow(lines[pos], id, arch, footprint).error)
      else Prefixed(front + [OperationRow(lines[pos], id, arch, footprint).value],
                    OperationRows(lines, pos + 1, id + 1, n - 1, arch, footprint))
  {
    if pos < |lines| && OperationRow(lines[pos], id, arch, footprint).Ok? {
      PrefixedTwice(front, [OperationRow(lines[pos], id, arch, footprint).value],
                    OperationRows(lines, pos + 1, id + 1, n - 1, arch, footprint));
    }
  }

  /** `parseOpsFile`: the count from the first line, then one row per operation, IDs from 1. */
  function ReadOperations(lines: seq<Row>, pos: nat, arch: Option<Architecture>,
                          footprint: Kind -> Option<OperationSize>): Reading<Option<OpRecord>>
  {
    var header :- Line(lines, pos);
    var count :- OperationCount(header);
    OperationRows(lines, pos + 1, 1, count, arch, footprint)
  }

  /** Entry k of a run of operation rows is what row pos + k creates with ID id + k. */
  lemma {:induction false} OperationRowsPointwise(lines: seq<Row>, pos: nat, id: int, n: nat, arch: Option<Architecture>,
                                                  footprint: Kind -> Option<OperationSize>)
    requires OperationRows(lines, pos, id, n, arch, footprint).Ok?
    ensures n > 0 ==> pos + n <= |lines|
    ensures var ops := OperationRows(lines, pos, id, n, arch, footprint).value.0;
      forall k :: 0 <= k < n ==> OperationRow(lines[pos + k], id + k, arch, footprint) == Ok(ops[k])
    decreases n
  {
    if n > 0 {
      OperationRowsPointwise(lines, pos + 1, id + 1, n - 1, arch, footprint);
      var rest := OperationRows(lines, pos + 1, id + 1, n - 1, arch, footprint).value.0;
      var all := OperationRows(lines, pos, id, n, arch, footprint).value.0;
      assert all == [OperationRow(lines[pos], id, arch, footprint).value] + rest;
      assert |all| == n;
      forall k | 0 <= k < n
        ensures OperationRow(lines[pos + k], id + k, arch, footprint) == Ok(all[k])
      {
        if k == 0 {
          assert all[k] == OperationRow(lines[pos], id, arch, footprint).value;
        } else {
          assert all[k] == rest[k - 1];
          assert pos + k == pos + 1 + (k - 1) && id + k == id + 1 + (k - 1);
        }
      }
    }
  }

  /** A loaded operation list: as many entries as the count's first digit,
      so at most nine; entry k is what line k + 1 after the count creates
      with ID k + 1. */
  lemma LoadedOperations(lines: seq<Row>, pos: nat, arch: Option<Architecture>, footprint: Kind -> Option<OperationSize>)
    requires ReadOperations(lines, pos, arch, footprint).Ok?
    ensures pos < |lines| && OperationCount(lines[pos]).Ok?
    ensures var (ops, next) := ReadOperations(lines, pos, arch, footprint).value;
      && |ops| == OperationCount(lines[pos]).value <= 9 && next == pos + 1 + |ops| && next <= |lines|
      && forall k :: 0 <= k < |ops| ==> OperationRow(lines[pos + 1 + k], 1 + k, arch, footprint) == Ok(ops[k])
  {
    assert Line(lines, pos) == Ok(lines[pos]);
    var count := OperationCount(lines[pos]).value;
    assert ReadOperations(lines, pos, arch, footprint) == OperationRows(lines, pos + 1, 1, count, arch, footprint);
    OperationRowsPointwise(lines, pos + 1, 1, count, arch, footprint);
  }

  /** IDs are dense in list order: entry k, when not null, has ID k + 1. */
  lemma LoadedIdsDense(lines: seq<Row>, pos: nat, arch: Option<Architecture>, footprint: Kind -> Option<OperationSize>)
    requires ReadOperations(lines, pos, arch, footprint).Ok?
    ensures var ops := ReadOperations(lines, pos, arch, footprint).value.0;
      forall k :: 0 <= k < |ops| && ops[k].Some? ==> ops[k].value.id == k + 1
  {
    LoadedOperations(lines, pos, arch, footprint);
    var ops := ReadOperations(lines, pos, arch, footprint).value.0;
    forall k | 0 <= k < |ops| && ops[k].Some?
      ensures ops[k].value.id == k + 1
    {
      OperationRowId(lines[pos + 1 + k], 1 + k, arch, footprint);
    }
  }

  /** A count line "12" loads a single operation. */
  lemma CountIsFirstDigit()
    ensures OperationCount([Whole(12)]) == Ok(1)
    ensures forall n :: 0 <= n < 10 ==> OperationCount([Whole(n)]) == Ok(n)
  {
  }

  // ----- parseEdges and parseGraphsFile -----

  /** One row of `parseEdges`: both endpoints looked up at index token - 1 of
      the operation list, and with costs the third token as the cost. */
  function EdgeRow(row: Row, ops: Option<seq<Operation?>>, costs: bool): Result<Edge<Operation?>, Failure>
  {
    var a :- IntField(row, 0);
    if ops.None? then Err(NullField)
    else if !(1 <= a <= |ops.value|) then Err(IndexOutOfBounds)
    else
      var b :- IntField(row, 1);
      if !(1 <= b <= |ops.value|) then Err(IndexOutOfBounds)
      else if costs then
        var c :- IntField(row, 2);
        Ok(NewCostEdge(ops.value[a - 1], ops.value[b - 1], c))
      else Ok(NewEdge(ops.value[a - 1], ops.value[b - 1]))
  }

  function EdgeRows(lines: seq<Row>, pos: nat, n: nat, ops: Option<seq<Operation?>>, costs: bool): (r: Reading<Edge<Operation?>>)
    ensures r.Ok? ==> |r.value.0| == n && r.value.1 == pos + n
    decreases n
  {
    if n == 0 then Ok(([], pos))
    else
      var line :- Line(lines, pos);
      var e :- EdgeRow(line, ops, costs);
      var rest :- EdgeRows(lines, pos + 1, n - 1, ops, costs);
      Ok(([e] + rest.0, rest.1))
  }

  /** One row further into a run of edge rows. */
  lemma EdgeRowsStep(lines: seq<Row>, pos: nat, n: nat, ops: Option<seq<Operation?>>, costs: bool, front: seq<Edge<Operation?>>)
    requires n > 0
    ensures Prefixed(front, EdgeRows(lines, pos, n, ops, costs)) ==
      if pos >= |lines| then Err(NullLine)
      else if EdgeRow(lines[pos], ops, costs).Err? then Err(EdgeRow(lines[pos], ops, costs).error)
      else Prefixed(front + [EdgeRow(lines[pos], ops, costs).value], EdgeRows(lines, pos + 1, n - 1, ops, costs))
  {
    if pos < |lines| && EdgeRow(lines[pos], ops, costs).Ok? {
      PrefixedTwice(front, [EdgeRow(lines[pos], ops, costs).value], EdgeRows(lines, pos + 1, n - 1, ops, costs));
    }
  }

  /** `parseEdges(reader, num_edges, costs)`: a negative count reads nothing. */
  function ReadEdges(lines: seq<Row>, pos: nat, count: int, ops: Option<seq<Operation?>>, costs: bool): Reading<Edge<Operation?>>
  {
    if count <= 0 then Ok(([], pos)) else EdgeRows(lines, pos, count, ops, costs)
  }

  /** What an edge row reads to: both endpoint tokens are ints naming list
      entries, the endpoints are the entries at index token - 1, and the
      third token is the cost exactly when costs are read. */
  lemma EdgeRowMeaning(row: Row, ops: Option<seq<Operation?>>, costs: bool)
    requires EdgeRow(row, ops, costs).Ok?
    ensures && ops.Some? && |row| >= (if costs then 3 else 2)
            && ParseInt(row[0]).Ok? && ParseInt(row[1]).Ok? && (costs ==> ParseInt(row[2]).Ok?)
    ensures var e := EdgeRow(row, ops, costs).value;
      && 1 <= row[0].n <= |ops.value| && 1 <= row[1].n <= |ops.value|
      && e.u == ops.value[row[0].n - 1] && e.v == ops.value[row[1].n - 1]
      && e.cost == (if costs then Some(row[2].n) else None)
  {
  }

  /** Edge k of a run of edge rows is what row pos + k reads to. */
  lemma {:induction false} EdgeRowsPointwise(lines: seq<Row>, pos: nat, n: nat, ops: Option<seq<Operation?>>, costs: bool)
    requires EdgeRows(lines, pos, n, ops, costs).Ok?
    ensures n > 0 ==> pos + n <= |lines|
    ensures var edges := EdgeRows(lines, pos, n, ops, costs).value.0;
      forall k :: 0 <= k < n ==> EdgeRow(lines[pos + k], ops, costs) == Ok(edges[k])
    decreases n
  {
    if n > 0 {
      EdgeRowsPointwise(lines, pos + 1, n - 1, ops, costs);
      var rest := EdgeRows(lines, pos + 1, n - 1, ops, costs).value.0;
      var all := EdgeRows(lines, pos, n, ops, costs).value.0;
      assert all == [EdgeRow(lines[pos], ops, costs).value] + rest;
      assert |all| == n;
      forall k | 0 <= k < n
        ensures EdgeRow(lines[pos + k], ops, costs) == Ok(all[k])
      {
        if k == 0 {
          assert all[k] == EdgeRow(lines[pos], ops, costs).value;
        } else {
          assert all[k] == rest[k - 1];
          assert pos + k == pos + 1 + (k - 1);
        }
      }
    }
  }

  /** The two graphs a graphs file reads to, and the position after it. */
  datatype GraphsRead = GraphsRead(interference: Graph<Operation?>, communication: Graph<Operation?>, next: nat)

  /** `parseGraphsFile`: the vertex count (unused) and the two edge counts,
      then the interference rows without costs and the communication rows
      with costs; both graphs share the operation list as their vertices. */
  function ReadGraphs(lines: seq<Row>, pos: nat, ops: Option<seq<Operation?>>): Result<GraphsRead, Failure>
  {
    var counts :- Fields(lines, pos, 3);
    var ig :- ReadEdges(lines, pos + 1, counts[1], ops, false);
    var cg :- ReadEdges(lines, ig.1, counts[2], ops, true);
    if ops.None? then Err(NullField)
    else Ok(GraphsRead(Graph(ops.value, ig.0), Graph(ops.value, cg.0), cg.1))
  }

  /** Both graphs are over the loaded operation list, and the edge rows
      take up the lines right after the count line. */
  lemma GraphsShareVertices(lines: seq<Row>, pos: nat, ops: Option<seq<Operation?>>)
    requires ReadGraphs(lines, pos, ops).Ok?
    ensures var g := ReadGraphs(lines, pos, ops).value;
      && ops.Some? && g.interference.vertices == ops.value && g.communication.vertices == ops.value
      && g.next == pos + 1 + |g.interference.edges| + |g.communication.edges|
  {
  }

  /** Edge k of the interference graph is what row pos + 1 + k reads to, without a cost. */
  lemma InterferenceRows(lines: seq<Row>, pos: nat, ops: Option<seq<Operation?>>)
    requires ReadGraphs(lines, pos, ops).Ok?
    ensures var edges := ReadGraphs(lines, pos, ops).value.interference.edges;
      && (|edges| > 0 ==> pos + 1 + |edges| <= |lines|)
      && forall k :: 0 <= k < |edges| ==> EdgeRow(lines[pos + 1 + k], ops, false) == Ok(edges[k])
  {
    var counts := Fields(lines, pos, 3).value;
    if counts[1] > 0 {
      EdgeRowsPointwise(lines, pos + 1, counts[1], ops, false);
    }
  }

  /** The communication rows follow the interference rows, each read with its cost. */
  lemma CommunicationRows(lines: seq<Row>, pos: nat, ops: Option<seq<Operation?>>)
    requires ReadGraphs(lines, pos, ops).Ok?
    ensures var g := ReadGraphs(lines, pos, ops).value;
      var from := pos + 1 + |g.interference.edges|;
      && (|g.communication.edges| > 0 ==> from + |g.communication.edges| <= |lines|)
      && forall k :: 0 <= k < |g.communication.edges| ==> EdgeRow(lines[from + k], ops, true) == Ok(g.communication.edges[k])
  {
    var counts := Fields(lines, pos, 3).value;
    var ig := ReadEdges(lines, pos + 1, counts[1], ops, false).value;
    if counts[2] > 0 {
      EdgeRowsPointwise(lines, ig.1, counts[2], ops, true);
    }
  }

  /** With IDs dense (entry k has ID k + 1), the endpoints of a parsed edge
      are found again at index ID - 1 of the list, as the engine looks them
      up; every edge of a graph over the list is such an edge. */
  lemma EndpointsResolveById(row: Row, ops: seq<Operation?>, costs: bool)
    requires forall i :: 0 <= i < |ops| && ops[i] != null ==> ops[i].id == i + 1
    requires EdgeRow(row, Some(ops), costs).Ok?
    ensures var e := EdgeRow(row, Some(ops), costs).value;
      && (e.u != null ==> 1 <= e.u.id <= |ops| && ops[e.u.id - 1] == e.u)
      && (e.v != null ==> 1 <= e.v.id <= |ops| && ops[e.v.id - 1] == e.v)
  {
    EdgeRowMeaning(row, Some(ops), costs);
  }

  // ----- parseAlphaFile -----

  /** `parseAlphaFile`: `Double.parseDouble` of the whole first line, so it must hold one number. */
  function ReadAlpha(lines: seq<Row>, pos: nat): Result<real, Failure>
  {
    var line :- Line(lines, pos);
    if |line| == 1 then Ok(ParseDouble(line[0])) else Err(NumberFormat)
  }

  // ----- which parse method a file goes to -----

  /** The parse method the `Parser` constructor hands a file to, by its name. */
  datatype FileRole = ArchFile | OpsFile | GraphsFile | AlphaFile | Unrecognised

  /** `String.contains`: `t` occurs in `s` as a contiguous piece. */
  function Contains(s: string, t: string): (b: bool)
    decreases |s|
  {
    if |s| < |t| then false
    else s[..|t|] == t || Contains(s[1..], t)
  }

  /** `t` occurs in `s` starting at index `i`. */
  predicate OccursAt(s: string, t: string, i: int)
  {
    0 <= i && i + |t| <= |s| && s[i..i + |t|] == t
  }

  /** `Contains` finds exactly the places where `t` occurs. */
  lemma {:induction false} ContainsMeaning(s: string, t: string)
    ensures Contains(s, t) <==> exists i :: OccursAt(s, t, i)
    decreases |s|
  {
    if |s| < |t| {
      forall i | OccursAt(s, t, i)
        ensures false
      {
      }
    } else if s[..|t|] == t {
      assert OccursAt(s, t, 0);
    } else {
      ContainsMeaning(s[1..], t);
      if Contains(s[1..], t) {
        var i :| OccursAt(s[1..], t, i);
        assert s[i + 1..i + 1 + |t|] == s[1..][i..i + |t|];
        assert OccursAt(s, t, i + 1);
      } else {
        forall i | OccursAt(s, t, i)
          ensures false
        {
          if i > 0 {
            assert s[1..][i - 1..i - 1 + |t|] == s[i..i + |t|];
            assert OccursAt(s[1..], t, i - 1);
          }
        }
      }
    }
  }

  /** A string does not contain a piece with a character it lacks. */
  lemma MissingCharacter(s: string, t: string, c: char)
    requires c in t && c !in s
    ensures !Contains(s, t)
  {
    ContainsMeaning(s, t);
  }

  /** The dispatch of the `Parser` constructor: the first of "arch.in",
      "ops.in", "graphs.in" and "alpha.in" the name contains decides. For a name
      with none of them the constructor throws FileNotFoundException, which
      its own IOException handler catches: it prints the stack trace, leaves
      the remaining files unread and returns normally. */
  function RoleOf(name: string): (role: FileRole)
    ensures role == Unrecognised <==>
      !Contains(name, "arch.in") && !Contains(name, "ops.in") && !Contains(name, "graphs.in") && !Contains(name, "alpha.in")
    ensures role == OpsFile ==> !Contains(name, "arch.in")
    ensures role == GraphsFile ==> !Contains(name, "arch.in") && !Contains(name, "ops.in")
    ensures role == AlphaFile ==> !Contains(name, "arch.in") && !Contains(name, "ops.in") && !Contains(name, "graphs.in")
  {
    if Contains(name, "arch.in") then ArchFile
    else if Contains(name, "ops.in") then OpsFile
    else if Contains(name, "graphs.in") then GraphsFile
    else if Contains(name, "alpha.in") then AlphaFile
    else Unrecognised
  }

  /** The names the program's inputs go by reach the four parse methods. */
  lemma StandardNames()
    ensures RoleOf("arch.in") == ArchFile && RoleOf("ops.in") == OpsFile
    ensures RoleOf("graphs.in") == GraphsFile && RoleOf("alpha.in") == AlphaFile
  {
    assert "arch.in"[..7] == "arch.in";
    assert "ops.in"[..6] == "ops.in";
    assert "graphs.in"[..9] == "graphs.in";
    assert "alpha.in"[..8] == "alpha.in";
    MissingCharacter("graphs.in", "arch.in", 'c');
    MissingCharacter("graphs.in", "ops.in", 'o');
    MissingCharacter("alpha.in", "arch.in", 'c');
    MissingCharacter("alpha.in", "ops.in", 'o');
  }

  // ----- the reader and the parser object -----

  /** The `BufferedReader` a file is read through: its lines, and the
      position of the next line `readLine()` returns. */
  class LineReader {
    const lines: seq<Row>
    var next: nat

    constructor (lines: seq<Row>)
      ensures this.lines == lines && next == 0
    {
      this.lines := lines;
      next := 0;
    }

    /** `readLine()`: the next line, or null once the file is exhausted. */
    method ReadLine() returns (line: Option<Row>)
      modifies this`next
      ensures old(next) < |lines| ==> line == Some(lines[old(next)]) && next == old(next) + 1
      ensures old(next) >= |lines| ==> line == None && next == old(next)
    {
      if next < |lines| {
        line := Some(lines[next]);
        next := next + 1;
      } else {
        line := None;
      }
    }
  }

  /** `readLine()` followed by a dereference of the line. */
  method ReadRow(reader: LineReader) returns (r: Result<Row, Failure>)
    modifies reader`next
    ensures r == Line(reader.lines, old(reader.next))
    ensures r.Ok? ==> reader.next == old(reader.next) + 1
  {
    var line := reader.ReadLine();
    if line.None? {
      return Err(NullLine);
    }
    return Ok(line.value);
  }

  /** `parseLocations`: reads `count` rows, one location each, in order. */
  method ParseLocations(reader: LineReader, count: int) returns (r: Result<seq<Location>, Failure>)
    modifies reader`next
    ensures r == Values(ReadLocations(reader.lines, old(reader.next), count))
    ensures r.Ok? ==> reader.next == ReadLocations(reader.lines, old(reader.next), count).value.1
  {
    if count < 0 {
      return Err(NegativeCapacity);
    }
    ghost var start := reader.next;
    var locations: seq<Location> := [];
    var i := 0;
    PrefixedNothing(LocationRows(reader.lines, start, count), locations, start + count);
    while i < count
      invariant 0 <= i <= count && reader.next == start + i
      invariant LocationRows(reader.lines, start, count) == Prefixed(locations, LocationRows(reader.lines, start + i, count - i))
    {
      LocationRowsStep(reader.lines, start + i, count - i, locations);
      var line := reader.ReadLine();
      if line.None? {
        return Err(NullLine);
      }
      var location := LocationRow(line.value);
      if location.Err? {
        return Err(location.error);
      }
      locations := locations + [location.value];
      i := i + 1;
    }
    PrefixedNothing(LocationRows(reader.lines, start, count), locations, start + count);
    return Ok(locations);
  }

  /** Reading an operation row: the object `parseOpsFile` creates for it
      (null for an unknown type code), or the exception on the way. */
  method LoadOperation(row: Row, id: int, arch: Option<Architecture>, footprint: Kind -> Option<OperationSize>)
    returns (r: Result<Operation?, Failure>)
    ensures r.Err? <==> OperationRow(row, id, arch, footprint).Err?
    ensures r.Err? ==> r.error == OperationRow(row, id, arch, footprint).error
    ensures r.Ok? ==> Snapshot(r.value) == OperationRow(row, id, arch, footprint).value
    ensures r.Ok? && r.value != null ==> fresh(r.value)
  {
    var code := IntField(row, 0);
    if code.Err? {
      return Err(code.error);
    }
    if code.value == 1 || code.value == 2 {
      var res := IntField(row, 1);
      if res.Err? {
        return Err(res.error);
      }
      var op: Operation;
      if code.value == 1 {
        op := new Operation.Input(id, res.value);
      } else {
        op := new Operation.Output(id, res.value);
      }
      if arch.None? {
        return Err(NullField);
      }
      var registry := if code.value == 1 then arch.value.inputs else arch.value.outputs;
      if !(1 <= res.value <= |registry|) {
        return Err(IndexOutOfBounds);
      }
      op.SetPlacement(registry[res.value - 1].x, registry[res.value - 1].y);
      return Ok(op);
    } else if code.value == 3 {
      if |row| < 2 {
        return Err(MissingField);
      }
      var op := new Operation.Mix(id, ParseDouble(row[1]));
      return Ok(op);
    } else if 4 <= code.value <= 9 {
      var kind := KindOf(code.value).value;
      var op: Operation;
      if footprint(kind).Some? {
        op := new Operation.Sized(id, kind, footprint(kind).value);
      } else {
        op := new Operation.Basic(id, kind);
      }
      return Ok(op);
    }
    return Ok(null);
  }

  /** One pass of the `parseOpsFile` loop: the next row read and its
      operation created, one row further into the run `total` stands for. */
  method LoadRowAt(reader: LineReader, id: int, arch: Option<Architecture>, footprint: Kind -> Option<OperationSize>,
                   ghost total: Reading<Option<OpRecord>>, ghost front: seq<Option<OpRecord>>, ghost n: nat)
    returns (r: Result<Operation?, Failure>, ghost rec: Option<OpRecord>)
    requires n > 0
    requires total == Prefixed(front, OperationRows(reader.lines, reader.next, id, n, arch, footprint))
    modifies reader`next
    ensures r.Err? ==> total == Err(r.error)
    ensures r.Ok? ==> && reader.next == old(reader.next) + 1
                      && total == Prefixed(front + [rec], OperationRows(reader.lines, reader.next, id + 1, n - 1, arch, footprint))
                      && Snapshot(r.value) == rec
                      && (r.value != null ==> fresh(r.value))
  {
    OperationRowsStep(reader.lines, reader.next, id, n, arch, footprint, front);
    var line := reader.ReadLine();
    if line.None? {
      return Err(NullLine), None;
    }
    r := LoadOperation(line.value, id, arch, footprint);
    rec := if r.Ok? then OperationRow(line.value, id, arch, footprint).value else None;
  }

  /** The loop of `parseOpsFile`: rows for IDs 1 to `n`, each turned into a
      fresh operation (or null) as the row reads to. */
  method LoadOperations(reader: LineReader, n: nat, arch: Option<Architecture>, footprint: Kind -> Option<OperationSize>)
    returns (r: Result<seq<Operation?>, Failure>, ghost recs: seq<Option<OpRecord>>)
    modifies reader`next
    ensures var expected := OperationRows(reader.lines, old(reader.next), 1, n, arch, footprint);
      && (r.Err? ==> expected == Err(r.error))
      && (r.Ok? ==> && expected == Ok((recs, reader.next))
                    && |r.value| == |recs|
                    && (forall k :: 0 <= k < |r.value| ==> Snapshot(r.value[k]) == recs[k])
                    && (forall k :: 0 <= k < |r.value| && r.value[k] != null ==> fresh(r.value[k])))
  {
    ghost var total := OperationRows(reader.lines, reader.next, 1, n, arch, footprint);
    var ops: seq<Operation?> := [];
    recs := [];
    PrefixedNothing(total, recs, reader.next + n);
    var i := 1;
    while i < n + 1
      invariant 1 <= i <= n + 1 && reader.next == old(reader.next) + (i - 1)
      invariant |ops| == |recs| == i - 1
      invariant total == Prefixed(recs, OperationRows(reader.lines, reader.next, i, n - (i - 1), arch, footprint))
      invariant forall k :: 0 <= k < |ops| ==> Snapshot(ops[k]) == recs[k]
      invariant forall k :: 0 <= k < |ops| && ops[k] != null ==> fresh(ops[k])
    {
      var op;
      ghost var rec;
      op, rec := LoadRowAt(reader, i, arch, footprint, total, recs, n - (i - 1));
      if op.Err? {
        return Err(op.error), recs;
      }
      ops := ops + [op.value];
      recs := recs + [rec];
      i := i + 1;
    }
    PrefixedNothing(total, recs, reader.next);
    return Ok(ops), recs;
  }

  /** The misc.Parser object: what has been loaded so far (null fields as None). */
  class Parser {
    var arch: Option<Architecture>
    var operations: Option<seq<Operation?>>
    var interferenceGraph: Option<Graph<Operation?>>
    var communicationGraph: Option<Graph<Operation?>>
    var alpha: real

    /** Nothing loaded yet. */
    constructor ()
      ensures arch == None && operations == None
      ensures interferenceGraph == None && communicationGraph == None && alpha == 0.0
    {
      arch := None;
      operations := None;
      interferenceGraph := None;
      communicationGraph := None;
      alpha := 0.0;
    }

    /** `parseArchFile`: on success the architecture the file reads to. */
    method ParseArchFile(reader: LineReader) returns (thrown: Option<Failure>)
      modifies reader`next, this`arch
      ensures var expected := ReadArchitecture(reader.lines, old(reader.next));
        && (thrown.None? <==> expected.Ok?)
        && (thrown.Some? ==> thrown.value == expected.error && arch == old(arch))
        && (thrown.None? ==> arch == Some(expected.value.0) && reader.next == expected.value.1)
    {
      ghost var start := reader.next;
      var counts := ParseCounts(reader);
      if counts.Err? {
        return Some(counts.error);
      }
      var c := counts.value;
      var inputs := ParseLocations(reader, c.inputs);
      if inputs.Err? {
        return Some(inputs.error);
      }
      var outputs := ParseLocations(reader, c.outputs);
      if outputs.Err? {
        return Some(outputs.error);
      }
      var sensors := ParseLocations(reader, c.sensors);
      if sensors.Err? {
        return Some(sensors.error);
      }
      var detectors := ParseLocations(reader, c.detectors);
      if detectors.Err? {
        return Some(detectors.error);
      }
      var heaters := ParseLocations(reader, c.heaters);
      if heaters.Err? {
        return Some(heaters.error);
      }
      arch := Some(Architecture(c.rows, c.columns, inputs.value, outputs.value, sensors.value, detectors.value, heaters.value));
      return None;
    }

    /** The first three lines of `parseArchFile`. */
    method ParseCounts(reader: LineReader) returns (r: Result<Counts, Failure>)
      modifies reader`next
      ensures r == ReadCounts(reader.lines, old(reader.next))
      ensures r.Ok? ==> reader.next == old(reader.next) + 3
    {
      var line := ReadRow(reader);
      if line.Err? {
        return Err(line.error);
      }
      var dims := IntFields(line.value, 2);
      if dims.Err? {
        return Err(dims.error);
      }
      line := ReadRow(reader);
      if line.Err? {
        return Err(line.error);
      }
      var io := IntFields(line.value, 2);
      if io.Err? {
        return Err(io.error);
      }
      line := ReadRow(reader);
      if line.Err? {
        return Err(line.error);
      }
      var special := IntFields(line.value, 3);
      if special.Err? {
        return Err(special.error);
      }
      return Ok(Counts(dims.value[0], dims.value[1], io.value[0], io.value[1],
                       special.value[0], special.value[1], special.value[2]));
    }

    /** `parseOpsFile`: on success a list of freshly created operations, the
        k-th as the k-th row after the count line reads to. */
    method ParseOpsFile(reader: LineReader, footprint: Kind -> Option<OperationSize>) returns (thrown: Option<Failure>)
      modifies reader`next, this`operations
      ensures var expected := ReadOperations(reader.lines, old(reader.next), arch, footprint);
        && (thrown.None? <==> expected.Ok?)
        && (thrown.Some? ==> thrown.value == expected.error)
        && (thrown.None? ==>
              && reader.next == expected.value.1
              && operations.Some? && |operations.value| == |expected.value.0|
              && (forall k :: 0 <= k < |operations.value| ==> Snapshot(operations.value[k]) == expected.value.0[k])
              && (forall k :: 0 <= k < |operations.value| && operations.value[k] != null ==> fresh(operations.value[k]))
              && (forall k :: 0 <= k < |operations.value| && operations.value[k] != null ==> operations.value[k].id == k + 1))
    {
      ghost var start := reader.next;
      var header := ReadRow(reader);
      if header.Err? {
        return Some(header.error);
      }
      var count := OperationCount(header.value);
      if count.Err? {
        return Some(count.error);
      }
      var ops;
      ghost var recs;
      ops, recs := LoadOperations(reader, count.value, arch, footprint);
      if ops.Err? {
        return Some(ops.error);
      }
      LoadedIdsDense(reader.lines, start, arch, footprint);
      operations := Some(ops.value);
      return None;
    }

    /** `parseEdges`: reads `count` edge rows against the operation list. */
    method ParseEdges(reader: LineReader, count: int, costs: bool) returns (r: Result<seq<Edge<Operation?>>, Failure>)
      modifies reader`next
      ensures r == Values(ReadEdges(reader.lines, old(reader.next), count, operations, costs))
      ensures r.Ok? ==> reader.next == ReadEdges(reader.lines, old(reader.next), count, operations, costs).value.1
    {
      ghost var start := reader.next;
      var edges: seq<Edge<Operation?>> := [];
      var i := 0;
      PrefixedNothing(EdgeRows(reader.lines, start, if count > 0 then count else 0, operations, costs), edges, start);
      while i < count
        invariant 0 <= i && (count > 0 ==> i <= count) && reader.next == start + i
        invariant count > 0 ==> EdgeRows(reader.lines, start, count, operations, costs)
                                == Prefixed(edges, EdgeRows(reader.lines, start + i, count - i, operations, costs))
        invariant count <= 0 ==> edges == [] && i == 0
      {
        EdgeRowsStep(reader.lines, start + i, count - i, operations, costs, edges);
        var line := reader.ReadLine();
        if line.None? {
          return Err(NullLine);
        }
        var edge := EdgeRow(line.value, operations, costs);
        if edge.Err? {
          return Err(edge.error);
        }
        edges := edges + [edge.value];
        i := i + 1;
      }
      PrefixedNothing(EdgeRows(reader.lines, start, 0, operations, costs), edges, start + i);
      return Ok(edges);
    }

    /** `parseGraphsFile`: both graphs over the operation list. */
    method ParseGraphsFile(reader: LineReader) returns (thrown: Option<Failure>)
      modifies reader`next, this`interferenceGraph, this`communicationGraph
      ensures var expected := ReadGraphs(reader.lines, old(reader.next), operations);
        && (thrown.None? <==> expected.Ok?)
        && (thrown.Some? ==> thrown.value == expected.error)
        && (thrown.None? ==>
              && interferenceGraph == Some(expected.value.interference)
              && communicationGraph == Some(expected.value.communication)
              && reader.next == expected.value.next)
    {
      var line := ReadRow(reader);
      if line.Err? {
        return Some(line.error);
      }
      var counts := IntFields(line.value, 3);
      if counts.Err? {
        return Some(counts.error);
      }
      var ig := ParseEdges(reader, counts.value[1], false);
      if ig.Err? {
        return Some(ig.error);
      }
      var cg := ParseEdges(reader, counts.value[2], true);
      if cg.Err? {
        return Some(cg.error);
      }
      if operations.None? {
        return Some(NullField);
      }
      interferenceGraph := Some(Graph(operations.value, ig.value));
      communicationGraph := Some(Graph(operations.value, cg.value));
      return None;
    }

    /** `parseAlphaFile`: the weight between the two objectives. */
    method ParseAlphaFile(reader: LineReader) returns (thrown: Option<Failure>)
      modifies reader`next, this`alpha
      ensures var expected := ReadAlpha(reader.lines, old(reader.next));
        && (thrown.None? <==> expected.Ok?)
        && (thrown.Some? ==> thrown.value == expected.error && alpha == old(alpha))
        && (thrown.None? ==> alpha == expected.value)
    {
      var line := ReadRow(reader);
      if line.Err? {
        return Some(line.error);
      }
      if |line.value| != 1 {
        return Some(NumberFormat);
      }
      alpha := ParseDouble(line.value[0]);
      return None;
    }
  }
}
