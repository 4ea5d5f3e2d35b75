/**
 * What both copies of `export_to_excel` share: the shapes a query-result row
 * can take, the attribute-then-position lookup of one header in one row, the
 * insertion-ordered dict each row becomes, the table that
 * `pd.DataFrame(data, columns=headers)` holds, and the generated file name.
 */
module Tabular {
  import opened PyValues

  // ---------------------------------------------------------------------------
  // Insertion-ordered dict (the `row_dict` of each row)
  // ---------------------------------------------------------------------------

  /** A Python dict: its keys in insertion order and the value under each. */
  datatype Record = Record(keys: seq<string>, values: map<string, Value>)

  predicate Distinct(s: seq<string>) {
    forall i, j :: 0 <= i < j < |s| ==> s[i] != s[j]
  }

  /** The key order lists each key of the dict exactly once. */
  predicate WellFormed(r: Record) {
    && Distinct(r.keys)
    && (forall k :: k in r.keys ==> k in r.values)
    && (forall k :: k in r.values ==> k in r.keys)
  }

  /** `d.get(h)`: the value under `h`, or None. */
  function Get(r: Record, h: string): Value {
    if h in r.values then r.values[h] else NoneV
  }

  function EmptyRecord(): (r: Record)
    ensures WellFormed(r) && r.keys == []
  {
    Record([], map[])
  }

  /** `d[k] = v`: a new key goes to the end of the key order, an existing key keeps its place. */
  function Put(r: Record, k: string, v: Value): Record {
    Record(if k in r.keys then r.keys else r.keys + [k], r.values[k := v])
  }

  /**
   * Assigning to a dict keeps it well formed; afterwards `k` holds `v` and
   * every other key holds what it held before.
   */
  lemma PutSpec(r: Record, k: string, v: Value)
    requires WellFormed(r)
    ensures WellFormed(Put(r, k, v))
    ensures Get(Put(r, k, v), k) == v
    ensures forall k' :: k' != k ==> Get(Put(r, k, v), k') == Get(r, k')
  {
  }

  /** The keys a dict ends up with when `s` is assigned in order: first occurrences, in order. */
  function Dedup(s: seq<string>): seq<string> {
    if s == [] then []
    else
      var d := Dedup(s[..|s| - 1]);
      if s[|s| - 1] in d then d else d + [s[|s| - 1]]
  }

  /** Each element of `s` is kept exactly once, and nothing else is. */
  lemma {:induction false} DedupSpec(s: seq<string>)
    ensures Distinct(Dedup(s))
    ensures forall x :: x in Dedup(s) <==> x in s
  {
    if s != [] {
      var init := s[..|s| - 1];
      var x := s[|s| - 1];
      DedupSpec(init);
      assert s == init + [x];
      assert forall y :: y in s <==> y in init || y == x;
    }
  }

  lemma {:induction false} DedupOfDistinct(s: seq<string>)
    requires Distinct(s)
    ensures Dedup(s) == s
  {
    if s != [] {
      var init := s[..|s| - 1];
      assert Distinct(init);
      DedupOfDistinct(init);
      assert s[|s| - 1] !in init;
      assert init + [s[|s| - 1]] == s;
    }
  }

  // ---------------------------------------------------------------------------
  // Row shapes
  // ---------------------------------------------------------------------------

  /** What `isinstance` sees: a list or tuple, a dict, or any other object. */
  datatype RowKind = Sequence(items: seq<Value>) | Mapping(entries: Record) | Plain

  /**
   * A query-result row: the attribute names `hasattr` finds on it (with what
   * `getattr` returns) and its shape.
   */
  datatype Row = Row(attrs: map<string, Value>, kind: RowKind)

  const TupleMethods: set<string> := {"count", "index"}

  const ListMethods: set<string> :=
    {"append", "clear", "copy", "count", "extend", "index", "insert", "pop", "remove", "reverse", "sort"}

  const DictMethods: set<string> :=
    {"clear", "copy", "fromkeys", "get", "items", "keys", "pop", "popitem", "setdefault", "update", "values"}

  /** The bound methods that `getattr` returns for the given method names. */
  function Methods(names: set<string>): (m: map<string, Value>)
    ensures m.Keys == names
  {
    map n | n in names :: ObjectV("bound method " + n)
  }

  function TupleRow(items: seq<Value>): Row {
    Row(Methods(TupleMethods), Sequence(items))
  }

  function ListRow(items: seq<Value>): Row {
    Row(Methods(ListMethods), Sequence(items))
  }

  /** A dict's keys are not attributes: only its methods are. */
  function DictRow(entries: Record): Row {
    Row(Methods(DictMethods), Mapping(entries))
  }

  /** An ORM instance: its columns are attributes, and it has no list/tuple shape. */
  function ObjectRow(attrs: map<string, Value>): Row {
    Row(attrs, Plain)
  }

  /**
   * A labelled row of `db.session.query(...).all()`: not a list or tuple; its
   * labels are attributes, and a label named `count` or `index` is found
   * before the `Sequence` method of that name, which the row still has when
   * no column carries the name.
   */
  function ResultRow(labels: map<string, Value>): Row {
    Row(Methods(TupleMethods) + labels, Plain)
  }

  // ---------------------------------------------------------------------------
  // Resolving one header in one row
  // ---------------------------------------------------------------------------

  /** `hs.index(h)`: the position of an occurrence of `h`. */
  function IndexOf(hs: seq<string>, h: string): (i: nat)
    requires h in hs
    ensures i < |hs| && hs[i] == h
  {
    if hs[0] == h then 0 else 1 + IndexOf(hs[1..], h)
  }

  /** The occurrence `hs.index(h)` finds is the first one. */
  lemma {:induction false} IndexOfFirst(hs: seq<string>, h: string)
    requires h in hs
    ensures forall k :: 0 <= k < IndexOf(hs, h) ==> hs[k] != h
  {
    if hs[0] != h {
      IndexOfFirst(hs[1..], h);
      forall k | 0 < k < IndexOf(hs, h)
        ensures hs[k] != h
      {
        assert hs[k] == hs[1..][k - 1];
      }
    }
  }

  /**
   * The raw value of header `h` in `row`: the attribute named `h` if there is
   * one; else, for a list or tuple, the element at `hs.index(h)` when that is
   * in bounds; else None.
   */
  function Resolve(row: Row, h: string, hs: seq<string>): Value
    requires h in hs
  {
    if h in row.attrs then row.attrs[h]
    else if row.kind.Sequence? then
      var i := IndexOf(hs, h);
      if i < |row.kind.items| then row.kind.items[i] else NoneV
    else NoneV
  }

  /**
   * The lookup statements at the top of the inner loop: `hasattr`, then the
   * list-or-tuple branch, then None.
   */
  method LookUp(row: Row, header: string, headers: seq<string>) returns (value: Value)
    requires header in headers
    ensures value == Resolve(row, header, headers)
  {
    if header in row.attrs {
      value := row.attrs[header];
    } else if row.kind.Sequence? {
      if IndexOf(headers, header) < |row.kind.items| {
        value := row.kind.items[IndexOf(headers, header)];
      } else {
        value := NoneV;
      }
    } else {
      value := NoneV;
    }
  }

  /** An attribute named by the header wins over every other source, whatever the shape. */
  lemma AttributeWins(row: Row, hs: seq<string>, j: nat)
    requires j < |hs| && hs[j] in row.attrs
    ensures Resolve(row, hs[j], hs) == row.attrs[hs[j]]
  {
  }

  /**
   * Without an attribute, a list or tuple row answers by position, and the
   * position is that of the header's first occurrence: a repeated header reads
   * the element under its first copy, never its own.
   */
  lemma PositionalByFirstOccurrence(row: Row, hs: seq<string>, j: nat, i: nat)
    requires j < |hs| && hs[j] !in row.attrs && row.kind.Sequence?
    requires i <= j && hs[i] == hs[j] && hs[j] !in hs[..i]
    ensures Resolve(row, hs[j], hs) == if i < |row.kind.items| then row.kind.items[i] else NoneV
  {
    IndexOfFirst(hs, hs[j]);
    forall k | 0 <= k < i
      ensures hs[k] != hs[j]
    {
      assert hs[k] == hs[..i][k];
    }
  }

  /** With distinct headers, a list or tuple row lines up column by column. */
  lemma PositionalWhenDistinct(row: Row, hs: seq<string>, j: nat)
    requires Distinct(hs) && j < |hs| && hs[j] !in row.attrs && row.kind.Sequence?
    ensures Resolve(row, hs[j], hs) == if j < |row.kind.items| then row.kind.items[j] else NoneV
  {
    PositionalByFirstOccurrence(row, hs, j, j);
  }

  /** Any row that is not a list or tuple gives None for a header it has no attribute for. */
  lemma NonSequenceGivesNone(row: Row, hs: seq<string>, j: nat)
    requires j < |hs| && hs[j] !in row.attrs && !row.kind.Sequence?
    ensures Resolve(row, hs[j], hs) == NoneV
  {
  }

  /**
   * A dict row is never looked up by key: every header that is not the name of
   * a dict method resolves to None, whatever the dict holds.
   */
  lemma DictRowGivesNone(entries: Record, hs: seq<string>, j: nat)
    requires j < |hs| && hs[j] !in DictMethods
    ensures Resolve(DictRow(entries), hs[j], hs) == NoneV
  {
  }

  /**
   * In a labelled row a header reads the label of that name; without such a
   * label, `count` and `index` read the row's bound method and any other
   * header gives None.
   */
  lemma ResultRowLookup(labels: map<string, Value>, hs: seq<string>, j: nat)
    requires j < |hs|
    ensures hs[j] in labels ==> Resolve(ResultRow(labels), hs[j], hs) == labels[hs[j]]
    ensures hs[j] !in labels && hs[j] in TupleMethods ==> Resolve(ResultRow(labels), hs[j], hs) == ObjectV("bound method " + hs[j])
    ensures hs[j] !in labels && hs[j] !in TupleMethods ==> Resolve(ResultRow(labels), hs[j], hs) == NoneV
  {
  }

  // ---------------------------------------------------------------------------
  // Projecting one row: the inner loop over the headers
  // ---------------------------------------------------------------------------

  /**
   * The dict built after the first `n` headers have been resolved, formatted
   * by `fmt` and assigned.
   */
  function ProjectPrefix(fmt: Value -> Value, row: Row, hs: seq<string>, n: nat): Record
    requires n <= |hs|
    decreases n
  {
    if n == 0 then EmptyRecord()
    else Put(ProjectPrefix(fmt, row, hs, n - 1), hs[n - 1], fmt(Resolve(row, hs[n - 1], hs)))
  }

  /** After `n` headers, the dict's keys are the first occurrences among them, in order. */
  lemma {:induction false} ProjectPrefixKeys(fmt: Value -> Value, row: Row, hs: seq<string>, n: nat)
    requires n <= |hs|
    ensures ProjectPrefix(fmt, row, hs, n).keys == Dedup(hs[..n])
    decreases n
  {
    if n > 0 {
      ProjectPrefixKeys(fmt, row, hs, n - 1);
      var r0 := ProjectPrefix(fmt, row, hs, n - 1);
      var h := hs[n - 1];
      var d0 := Dedup(hs[..n - 1]);
      assert Dedup(hs[..n]) == if h in d0 then d0 else d0 + [h] by {
        assert hs[..n][..n - 1] == hs[..n - 1];
        assert hs[..n][n - 1] == h;
      }
      ProjectPrefixStep(fmt, row, hs, n - 1);
    }
  }

  /** The key order and the dict's domain hold the same keys at every step. */
  lemma {:induction false} ProjectPrefixDomain(fmt: Value -> Value, row: Row, hs: seq<string>, n: nat)
    requires n <= |hs|
    ensures forall x :: x in ProjectPrefix(fmt, row, hs, n).keys <==> x in ProjectPrefix(fmt, row, hs, n).values
    decreases n
  {
    if n > 0 {
      ProjectPrefixDomain(fmt, row, hs, n - 1);
      ProjectPrefixStep(fmt, row, hs, n - 1);
    }
  }

  /** The dict stays well formed as the headers are assigned. */
  lemma ProjectPrefixWellFormed(fmt: Value -> Value, row: Row, hs: seq<string>, n: nat)
    requires n <= |hs|
    ensures WellFormed(ProjectPrefix(fmt, row, hs, n))
  {
    ProjectPrefixKeys(fmt, row, hs, n);
    DedupSpec(hs[..n]);
    ProjectPrefixDomain(fmt, row, hs, n);
  }

  /** After `n` headers, each of them holds its formatted resolution. */
  lemma {:induction false} ProjectPrefixValues(fmt: Value -> Value, row: Row, hs: seq<string>, n: nat)
    requires n <= |hs|
    ensures forall k :: 0 <= k < n ==>
              hs[k] in ProjectPrefix(fmt, row, hs, n).values
              && ProjectPrefix(fmt, row, hs, n).values[hs[k]] == fmt(Resolve(row, hs[k], hs))
    decreases n
  {
    if n > 0 {
      ProjectPrefixValues(fmt, row, hs, n - 1);
      var r0 := ProjectPrefix(fmt, row, hs, n - 1);
      var h := hs[n - 1];
      var r := Put(r0, h, fmt(Resolve(row, h, hs)));
      assert ProjectPrefix(fmt, row, hs, n) == r;
      forall k | 0 <= k < n
        ensures hs[k] in r.values && r.values[hs[k]] == fmt(Resolve(row, hs[k], hs))
      {
        if hs[k] != h {
          assert hs[k] in r0.values;
        }
      }
    }
  }

  /** One turn of the inner loop: resolve, format and assign the next header. */
  lemma ProjectPrefixStep(fmt: Value -> Value, row: Row, hs: seq<string>, n: nat)
    requires n < |hs|
    ensures ProjectPrefix(fmt, row, hs, n + 1) == Put(ProjectPrefix(fmt, row, hs, n), hs[n], fmt(Resolve(row, hs[n], hs)))
  {
  }

  /** The dict built for one row once every header has been assigned. */
  function ProjectRow(fmt: Value -> Value, row: Row, hs: seq<string>): Record {
    ProjectPrefix(fmt, row, hs, |hs|)
  }

  /**
   * The record of a row has exactly the headers as keys, in header order (a
   * repeated header keeps the place of its first occurrence), and under each
   * the formatted resolution of that header.
   */
  lemma {:induction false} ProjectRowShape(fmt: Value -> Value, row: Row, hs: seq<string>)
    ensures ProjectRow(fmt, row, hs).keys == Dedup(hs)
    ensures Distinct(hs) ==> ProjectRow(fmt, row, hs).keys == hs
    ensures forall h :: h in ProjectRow(fmt, row, hs).values <==> h in hs
    ensures forall j :: 0 <= j < |hs| ==> ProjectRow(fmt, row, hs).values[hs[j]] == fmt(Resolve(row, hs[j], hs))
  {
    ProjectPrefixKeys(fmt, row, hs, |hs|);
    ProjectPrefixWellFormed(fmt, row, hs, |hs|);
    ProjectPrefixValues(fmt, row, hs, |hs|);
    assert hs[..|hs|] == hs;
    DedupSpec(hs);
    if Distinct(hs) {
      DedupOfDistinct(hs);
    }
  }

  // ---------------------------------------------------------------------------
  // The table of `pd.DataFrame(data, columns=headers)`
  // ---------------------------------------------------------------------------

  /** A sheet: the header row, then one row of cells per record. */
  datatype Table = Table(header: seq<string>, rows: seq<seq<Value>>)

  /**
   * The columns are the headers, in their order; each row takes its cells
   * from one record, and a header the record lacks gives an empty (None) cell.
   */
  function ToTable(data: seq<Record>, hs: seq<string>): (t: Table)
    ensures t.header == hs && |t.rows| == |data|
    ensures forall i :: 0 <= i < |data| ==> |t.rows[i]| == |hs|
    ensures forall i, j :: 0 <= i < |data| && 0 <= j < |hs| ==> t.rows[i][j] == Get(data[i], hs[j])
  {
    Table(hs, seq(|data|, i requires 0 <= i < |data| => seq(|hs|, j requires 0 <= j < |hs| => Get(data[i], hs[j]))))
  }

  // ---------------------------------------------------------------------------
  // File name `{prefix}_{YYYYMMDD_HHMMSS}.xlsx`
  // ---------------------------------------------------------------------------

  /** `f"{prefix}_{timestamp}.xlsx"` with the timestamp `%Y%m%d_%H%M%S` of `now`. */
  function SpreadsheetName(prefix: string, now: DateTime): string {
    prefix + "_" + StampCompact(now) + ".xlsx"
  }

  /** A generated name is the prefix, `_`, eight digits, `_`, six digits and `.xlsx`. */
  lemma SpreadsheetNamePattern(prefix: string, now: DateTime)
    ensures var name := SpreadsheetName(prefix, now); var n := |prefix|;
      && |name| == n + 21 && name[..n] == prefix
      && name[n] == '_' && AllDigits(name[n + 1..n + 9])
      && name[n + 9] == '_' && AllDigits(name[n + 10..n + 16])
      && name[n + 16..] == ".xlsx"
  {
    StampCompactShape(now);
    NameSlices(prefix, StampCompact(now));
  }

  /** Where the parts of `prefix_<15-character stamp>.xlsx` lie. */
  lemma NameSlices(prefix: string, st: string)
    requires |st| == 15
    ensures var name := prefix + "_" + st + ".xlsx"; var n := |prefix|;
      && |name| == n + 21 && name[..n] == prefix && name[n] == '_'
      && name[n + 1..n + 9] == st[..8] && name[n + 9] == st[8] && name[n + 10..n + 16] == st[9..]
      && name[n + 16..] == ".xlsx"
  {
    var name := prefix + "_" + st + ".xlsx";
    var n := |prefix|;
    assert name[n + 1..n + 16] == st;
  }

  /** Splits a generated file name into its prefix and its timestamp, reading from the end. */
  function ParseSpreadsheetName(name: string): Option<(string, CivilDateTime)> {
    if |name| >= 21 && name[|name| - 5..] == ".xlsx" && name[|name| - 21] == '_' then
      match ParseCompact(name[|name| - 20..|name| - 5])
      case Some(dt) => Some((name[..|name| - 21], dt))
      case None => None
    else None
  }

  /** The file name gives back its prefix and the render time to the second. */
  lemma {:induction false} SpreadsheetNameRoundTrip(prefix: string, now: DateTime)
    ensures ParseSpreadsheetName(SpreadsheetName(prefix, now)) == Some((prefix, Truncate(now)))
  {
    var name := SpreadsheetName(prefix, now);
    var n := |name|;
    assert name[n - 5..] == ".xlsx";
    assert name[n - 21] == '_';
    assert name[n - 20..n - 5] == StampCompact(now);
    assert name[..n - 21] == prefix;
    StampCompactRoundTrip(now);
  }

  /** Two generated names are equal exactly when prefix and render second are. */
  lemma SpreadsheetNameInjective(p1: string, t1: DateTime, p2: string, t2: DateTime)
    ensures SpreadsheetName(p1, t1) == SpreadsheetName(p2, t2) <==> p1 == p2 && Truncate(t1) == Truncate(t2)
  {
    SpreadsheetNameRoundTrip(p1, t1);
    SpreadsheetNameRoundTrip(p2, t2);
    if p1 == p2 && Truncate(t1) == Truncate(t2) {
      StampCompactRoundTrip(t1);
      StampCompactRoundTrip(t2);
      assert StampCompact(t1) == StampCompact(t2);
    }
  }
}
