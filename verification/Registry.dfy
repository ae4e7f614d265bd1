/**
 The cross-instance registry (src/beetroot/registry.py): reading with salvage,
 writing, and the read-modify-write operations that run under its file lock.
 Every operation below is one critical section, hence one atomic step.
 */
module Registry {
  import opened Prelude
  import Ports

  datatype Json =
    | Null
    | Bool(b: bool)
    | Num(n: int)
    | Str(s: string)
    | Arr(items: seq<Json>)
    | Obj(fields: map<string, Json>)

  datatype Backend =
    | Redroid(path: string, stealth: map<string, string>)
    | Adb(serial: string)
    | Vm(path: string)
    | Opaque(raw: map<string, Json>)

  datatype Meta = Meta(backend: Backend, index: int, createdAt: int)

  type Rows = map<string, Meta>

  /** How `index` and `created_at` are read, possibly leniently, and how an instant is printed. */
  datatype Codec = Codec(index: Json -> Option<int>, time: Json -> Option<int>, iso: int -> string)

  /** The canonical forms that a write emits are read back as the values they came from. */
  ghost predicate Sound(c: Codec) {
    && (forall n :: c.index(Num(n)) == Some(n))
    && (forall t :: c.time(Str(c.iso(t))) == Some(t))
  }

  // ---- Reading one row ------------------------------------------------------

  function Kind(raw: map<string, Json>): string {
    if "kind" in raw && raw["kind"].Str? then raw["kind"].s else ""
  }

  predicate HasPath(raw: map<string, Json>) {
    "absolute_path" in raw && raw["absolute_path"].Str?
  }

  predicate StringTable(j: Json) {
    j.Obj? && forall k | k in j.fields :: j.fields[k].Str?
  }

  function TableOf(j: Json): map<string, string>
    requires StringTable(j)
  {
    map k | k in j.fields :: j.fields[k].s
  }

  /** `None` when a known kind rejects its payload; an unknown kind is kept opaquely. */
  function ParseBackend(raw: map<string, Json>): Option<Backend> {
    if Kind(raw) == "redroid" then
      if raw.Keys <= {"kind", "absolute_path", "stealth_paths"} && HasPath(raw)
         && ("stealth_paths" in raw ==> StringTable(raw["stealth_paths"]))
      then Some(Redroid(raw["absolute_path"].s,
                        if "stealth_paths" in raw then TableOf(raw["stealth_paths"]) else map[]))
      else None
    else if Kind(raw) == "adb" then
      if raw.Keys <= {"kind", "serial"} && "serial" in raw && raw["serial"].Str?
      then Some(Adb(raw["serial"].s)) else None
    else if Kind(raw) == "vm" then
      if raw.Keys <= {"kind", "absolute_path"} && HasPath(raw)
      then Some(Vm(raw["absolute_path"].s)) else None
    else Some(Opaque(raw))
  }

  function DumpBackend(b: Backend): map<string, Json> {
    match b
    case Redroid(path, stealth) =>
      map["kind" := Str("redroid"), "absolute_path" := Str(path),
          "stealth_paths" := Obj(map k | k in stealth :: Str(stealth[k]))]
    case Adb(serial) => map["kind" := Str("adb"), "serial" := Str(serial)]
    case Vm(path) => map["kind" := Str("vm"), "absolute_path" := Str(path)]
    case Opaque(raw) => raw
  }

  /** A row the reader looks at; any other is passed over. */
  predicate Shaped(row: Json) {
    row.Obj? && "backend" in row.fields && row.fields["backend"].Obj?
  }

  function RowIndex(c: Codec, row: Json): Option<int> {
    if row.Obj? && "index" in row.fields then c.index(row.fields["index"]) else None
  }

  function RowTime(c: Codec, row: Json): Option<int> {
    if row.Obj? && "created_at" in row.fields then c.time(row.fields["created_at"]) else None
  }

  predicate UsableMeta(c: Codec, row: Json) {
    && row.Obj?
    && row.fields.Keys <= {"backend", "index", "created_at"}
    && RowIndex(c, row).Some?
    && RowTime(c, row).Some?
  }

  function BackendOrOpaque(raw: map<string, Json>): Backend {
    var parsed := ParseBackend(raw);
    if parsed.Some? then parsed.value else Opaque(raw)
  }

  /** First try the row as it stands, then with its backend wrapped opaquely. */
  function ParseRow(c: Codec, row: Json): Option<Meta>
    requires Shaped(row)
  {
    if UsableMeta(c, row) then
      Some(Meta(BackendOrOpaque(row.fields["backend"].fields), RowIndex(c, row).value, RowTime(c, row).value))
    else None
  }

  // ---- Reading and writing a document ---------------------------------------

  predicate Envelope(doc: Json) {
    doc.Obj? && "version" in doc.fields && doc.fields["version"] == Num(3)
  }

  function RawRows(doc: Json): map<string, Json> {
    if doc.Obj? && "instances" in doc.fields && doc.fields["instances"].Obj?
    then doc.fields["instances"].fields else map[]
  }

  predicate Accepted(c: Codec, doc: Json) {
    Envelope(doc) && forall n | n in RawRows(doc) && Shaped(RawRows(doc)[n]) :: UsableMeta(c, RawRows(doc)[n])
  }

  function Parse(c: Codec, doc: Json): Rows
    requires Accepted(c, doc)
  {
    var raw := RawRows(doc);
    map n | n in raw && Shaped(raw[n]) :: ParseRow(c, raw[n]).value
  }

  function RowJson(c: Codec, m: Meta): Json {
    Obj(map["backend" := Obj(DumpBackend(m.backend)), "index" := Num(m.index),
            "created_at" := Str(c.iso(m.createdAt))])
  }

  function ToJson(c: Codec, rows: Rows): Json {
    Obj(map["version" := Num(3), "instances" := Obj(map n | n in rows :: RowJson(c, rows[n]))])
  }

  // ---- Round trips -----------------------------------------------------------

  /** Opaque payloads are exactly those that no known kind accepts. */
  predicate CanonicalBackend(b: Backend) {
    b.Opaque? && ParseBackend(b.raw).Some? ==> ParseBackend(b.raw).value == b
  }

  predicate Canonical(rows: Rows) { forall n | n in rows :: CanonicalBackend(rows[n].backend) }

  lemma DumpThenParse(b: Backend)
    requires CanonicalBackend(b)
    ensures BackendOrOpaque(DumpBackend(b)) == b
  {
    match b
    case Redroid(path, stealth) =>
      var raw := DumpBackend(b);
      assert raw["kind"] == Str("redroid");
      assert TableOf(raw["stealth_paths"]) == stealth;
    case Adb(serial) =>
      assert DumpBackend(b)["kind"] == Str("adb");
    case Vm(path) =>
      assert DumpBackend(b)["kind"] == Str("vm");
    case Opaque(raw) =>
  }

  /** The stored forms a known kind is read from, key by key: only the stealth layout may be left out. */
  lemma ReadFromExactly(raw: map<string, Json>, path: string, stealth: map<string, string>)
    ensures ParseBackend(raw) == Some(Redroid(path, stealth)) <==>
              || raw == map["kind" := Str("redroid"), "absolute_path" := Str(path),
                            "stealth_paths" := Obj(map k | k in stealth :: Str(stealth[k]))]
              || (raw == map["kind" := Str("redroid"), "absolute_path" := Str(path)] && stealth == map[])
    ensures ParseBackend(raw) == Some(Vm(path)) <==>
              raw == map["kind" := Str("vm"), "absolute_path" := Str(path)]
    ensures ParseBackend(raw) == Some(Adb(path)) <==> raw == map["kind" := Str("adb"), "serial" := Str(path)]
  {
    if ParseBackend(raw) == Some(Redroid(path, stealth)) && "stealth_paths" in raw {
      assert raw["stealth_paths"] == Obj(map k | k in stealth :: Str(stealth[k]));
    }
    if raw == map["kind" := Str("redroid"), "absolute_path" := Str(path),
                  "stealth_paths" := Obj(map k | k in stealth :: Str(stealth[k]))] {
      assert TableOf(raw["stealth_paths"]) == stealth;
    }
  }

  lemma RowRoundTrip(c: Codec, m: Meta)
    requires Sound(c) && CanonicalBackend(m.backend)
    ensures Shaped(RowJson(c, m)) && UsableMeta(c, RowJson(c, m)) && ParseRow(c, RowJson(c, m)) == Some(m)
  {
    hide ParseBackend, DumpBackend, BackendOrOpaque, CanonicalBackend;
    DumpThenParse(m.backend);
    var row := RowJson(c, m);
    assert row.fields["index"] == Num(m.index) && row.fields["created_at"] == Str(c.iso(m.createdAt));
  }

  /** What a write puts in the document. */
  lemma Written(c: Codec, rows: Rows)
    ensures Envelope(ToJson(c, rows))
    ensures RawRows(ToJson(c, rows)) == map n | n in rows :: RowJson(c, rows[n])
  {
  }

  lemma WriteThenRead(c: Codec, rows: Rows)
    requires Sound(c) && Canonical(rows)
    ensures Accepted(c, ToJson(c, rows)) && Parse(c, ToJson(c, rows)) == rows
  {
    hide ToJson, RawRows, RowJson, Envelope, Shaped, UsableMeta, ParseRow, Sound, CanonicalBackend;
    Written(c, rows);
    forall n | n in rows
      ensures Shaped(RowJson(c, rows[n])) && UsableMeta(c, RowJson(c, rows[n]))
          && ParseRow(c, RowJson(c, rows[n])) == Some(rows[n])
    {
      RowRoundTrip(c, rows[n]);
    }
  }

  lemma ParsedRow(c: Codec, doc: Json, n: string)
    requires Accepted(c, doc) && n in RawRows(doc) && Shaped(RawRows(doc)[n])
    ensures n in Parse(c, doc) && RowIndex(c, RawRows(doc)[n]) == Some(Parse(c, doc)[n].index)
    ensures Parse(c, doc)[n].backend == BackendOrOpaque(RawRows(doc)[n].fields["backend"].fields)
    ensures CanonicalBackend(Parse(c, doc)[n].backend)
  {
  }

  lemma ParsedCanonical(c: Codec, doc: Json)
    requires Accepted(c, doc)
    ensures Canonical(Parse(c, doc))
  {
    forall n | n in Parse(c, doc) ensures CanonicalBackend(Parse(c, doc)[n].backend) { ParsedRow(c, doc, n); }
  }

  /** Reading, writing and reading again changes nothing, and every row keeps its index. */
  lemma ReadWriteRead(c: Codec, doc: Json)
    requires Sound(c) && Accepted(c, doc)
    ensures Accepted(c, ToJson(c, Parse(c, doc)))
    ensures Parse(c, ToJson(c, Parse(c, doc))) == Parse(c, doc)
    ensures forall n | n in RawRows(doc) && Shaped(RawRows(doc)[n]) ::
              && n in RawRows(ToJson(c, Parse(c, doc)))
              && RowIndex(c, RawRows(ToJson(c, Parse(c, doc)))[n]) == RowIndex(c, RawRows(doc)[n])
  {
    var rows := Parse(c, doc);
    ParsedCanonical(c, doc);
    hide Parse, ToJson, RawRows, Accepted, RowIndex, RowJson, Shaped, CanonicalBackend;
    WriteThenRead(c, rows);
    Written(c, rows);
    forall n | n in RawRows(doc) && Shaped(RawRows(doc)[n])
      ensures n in RawRows(ToJson(c, rows)) && RowIndex(c, RawRows(ToJson(c, rows))[n]) == RowIndex(c, RawRows(doc)[n])
    {
      ParsedRow(c, doc, n);
      WrittenIndex(c, rows[n]);
    }
  }

  lemma WrittenIndex(c: Codec, m: Meta)
    requires Sound(c)
    ensures RowIndex(c, RowJson(c, m)) == Some(m.index)
  {
    assert RowJson(c, m).fields["index"] == Num(m.index);
  }

  /** A backend of unknown kind, or one its kind rejects, is written back verbatim. */
  lemma OpaqueVerbatim(c: Codec, doc: Json, name: string)
    requires Accepted(c, doc) && name in RawRows(doc) && Shaped(RawRows(doc)[name])
    requires Kind(RawRows(doc)[name].fields["backend"].fields) !in {"redroid", "adb", "vm"}
          || ParseBackend(RawRows(doc)[name].fields["backend"].fields).None?
    ensures name in RawRows(ToJson(c, Parse(c, doc)))
    ensures Shaped(RawRows(ToJson(c, Parse(c, doc)))[name])
    ensures RawRows(ToJson(c, Parse(c, doc)))[name].fields["backend"] == RawRows(doc)[name].fields["backend"]
  {
    var rows, raw := Parse(c, doc), RawRows(doc)[name].fields["backend"].fields;
    assert BackendOrOpaque(raw) == Opaque(raw);
    hide ParseBackend, Kind, RawRows, ToJson, Parse, Accepted;
    ParsedRow(c, doc, name);
    Written(c, rows);
    assert RowJson(c, rows[name]).fields["backend"] == Obj(DumpBackend(rows[name].backend));
  }

  /** A read/write cycle drops a name, and frees its index, exactly when some row has no dict backend. */
  lemma NamesKeptExactly(c: Codec, doc: Json)
    requires Accepted(c, doc)
    ensures RawRows(ToJson(c, Parse(c, doc))).Keys == RawRows(doc).Keys
       <==> forall n | n in RawRows(doc) :: Shaped(RawRows(doc)[n])
  {
    var raw := RawRows(doc);
    assert RawRows(ToJson(c, Parse(c, doc))).Keys == set n | n in raw && Shaped(raw[n]);
    if n :| n in raw && !Shaped(raw[n]) {
      assert n !in (set n | n in raw && Shaped(raw[n]));
    } else {
      assert raw.Keys == set n | n in raw && Shaped(raw[n]);
    }
  }

  // ---- The operations on rows -------------------------------------------------

  function Used(rows: Rows): set<int> { set n | n in rows :: rows[n].index }

  datatype AddError = NameTaken | OutOfIndices

  function Added(rows: Rows, name: string, backend: Backend, now: int): Result<Rows, AddError> {
    if name in rows then Err(NameTaken)
    else if Ports.LowestFree(Used(rows)) > Ports.MAX_PORT_INDEX then Err(OutOfIndices)
    else Ok(rows[name := Meta(backend, Ports.LowestFree(Used(rows)), now)])
  }

  function Reconciled(rows: Rows, name: string, wantVm: bool): Rows {
    if name in rows && rows[name].backend.Redroid? && wantVm
    then rows[name := rows[name].(backend := Vm(rows[name].backend.path))]
    else if name in rows && rows[name].backend.Vm? && !wantVm
    then rows[name := rows[name].(backend := Redroid(rows[name].backend.path, map[]))]
    else rows
  }

  function WithStealth(rows: Rows, name: string, stealth: map<string, string>): Rows {
    if name in rows && rows[name].backend.Redroid?
    then rows[name := rows[name].(backend := rows[name].backend.(stealth := stealth))]
    else rows
  }

  /** Indices are within the cap and no two rows share one. */
  predicate Inv(rows: Rows) {
    && (forall n | n in rows :: Ports.InRange(rows[n].index))
    && (forall m, n | m in rows && n in rows && rows[m].index == rows[n].index :: m == n)
  }

  datatype Op =
    | AddOp(name: string, backend: Backend, now: int)
    | RemoveOp(name: string)
    | ReconcileOp(name: string, wantVm: bool)
    | StealthOp(name: string, stealth: map<string, string>)

  function Apply(rows: Rows, op: Op): Rows {
    match op
    case AddOp(name, backend, now) =>
      var r := Added(rows, name, backend, now); if r.Ok? then r.value else rows
    case RemoveOp(name) => rows - {name}
    case ReconcileOp(name, wantVm) => Reconciled(rows, name, wantVm)
    case StealthOp(name, stealth) => WithStealth(rows, name, stealth)
  }

  function Run(rows: Rows, ops: seq<Op>): Rows
    decreases |ops|
  {
    if ops == [] then rows else Run(Apply(rows, ops[0]), ops[1..])
  }

  lemma AddKeepsInv(rows: Rows, name: string, backend: Backend, now: int)
    requires Inv(rows)
    ensures Added(rows, name, backend, now).Ok? ==> Inv(Added(rows, name, backend, now).value)
  {
    forall n | n in rows ensures rows[n].index in Used(rows) {}
  }

  /** Distinct indices within the cap, over every interleaving of locked operations. */
  lemma {:induction false} RunKeepsInv(rows: Rows, ops: seq<Op>)
    requires Inv(rows)
    ensures Inv(Run(rows, ops))
    decreases |ops|
  {
    if ops == [] {
    } else {
      if ops[0].AddOp? { AddKeepsInv(rows, ops[0].name, ops[0].backend, ops[0].now); }
      RunKeepsInv(Apply(rows, ops[0]), ops[1..]);
    }
  }

  function DirectoryOf(b: Backend): Option<string> {
    match b case Redroid(p, _) => Some(p) case Vm(p) => Some(p) case _ => None
  }

  /** A row keeps its index, directory and creation time for as long as nobody removes it. */
  lemma {:induction false} RunKeepsRow(rows: Rows, ops: seq<Op>, name: string)
    requires name in rows && RemoveOp(name) !in ops
    ensures name in Run(rows, ops)
    ensures Run(rows, ops)[name].index == rows[name].index
    ensures Run(rows, ops)[name].createdAt == rows[name].createdAt
    ensures DirectoryOf(Run(rows, ops)[name].backend) == DirectoryOf(rows[name].backend)
    decreases |ops|
  {
    if ops == [] {
    } else {
      assert ops[0] in ops;
      RunKeepsRow(Apply(rows, ops[0]), ops[1..], name);
    }
  }

  predicate Taken(rows: Rows, i: int) { exists n | n in rows :: rows[n].index == i }

  /** A fresh name is refused exactly when indices 0..1295 are all taken. */
  lemma AllocationFailsExactly(rows: Rows, name: string, backend: Backend, now: int)
    requires name !in rows
    ensures Added(rows, name, backend, now).Err?
       <==> forall i | 0 <= i <= Ports.MAX_PORT_INDEX :: Taken(rows, i)
  {
    Ports.ExhaustedExactly(Used(rows));
    forall i ensures i in Used(rows) <==> Taken(rows, i) {}
  }

  /** A fresh name gets the smallest of the indices 0..1295 that no row holds; it is refused when there is none. */
  lemma AddedExactly(rows: Rows, name: string, backend: Backend, now: int, index: int)
    ensures Added(rows, name, backend, now) == Ok(rows[name := Meta(backend, index, now)])
       <==> && name !in rows && 0 <= index <= 1295 && !Taken(rows, index)
            && forall i | 0 <= i < index :: Taken(rows, i)
    ensures Added(rows, name, backend, now) == Err(NameTaken) <==> name in rows
    ensures Added(rows, name, backend, now) == Err(OutOfIndices)
       <==> name !in rows && forall i | 0 <= i <= 1295 :: Taken(rows, i)
  {
    Ports.CapIsLargest(0);
    Ports.ExhaustedExactly(Used(rows));
    forall i ensures i in Used(rows) <==> Taken(rows, i) {}
    var i := Ports.LowestFree(Used(rows));
    if i != index {
      assert rows[name := Meta(backend, i, now)][name] != rows[name := Meta(backend, index, now)][name];
    }
  }

  /** A redroid or vm row becomes vm exactly when that is wanted, with directory, index and creation time kept, and
      loses its stealth layout only by becoming redroid; every other row is left as it is. */
  lemma ReconciledExactly(rows: Rows, name: string, wantVm: bool)
    ensures Reconciled(rows, name, wantVm).Keys == rows.Keys
    ensures forall n | n in rows && n != name :: Reconciled(rows, name, wantVm)[n] == rows[n]
    ensures name in rows ==>
              var was, row := rows[name], Reconciled(rows, name, wantVm)[name];
              match was.backend
              case Redroid(path, _) => row == if wantVm then Meta(Vm(path), was.index, was.createdAt) else was
              case Vm(path) => row == if wantVm then was else Meta(Redroid(path, map[]), was.index, was.createdAt)
              case _ => row == was
    ensures Reconciled(rows, name, wantVm) != rows
       <==> name in rows && ((rows[name].backend.Redroid? && wantVm) || (rows[name].backend.Vm? && !wantVm))
  {
    var after := Reconciled(rows, name, wantVm);
    assert name in rows && after != rows ==> after[name] != rows[name];
    assert name in rows && rows[name] != after[name] ==> after != rows;
  }

  // ---- Capacity ------------------------------------------------------------------

  function Below(n: nat): (r: set<int>)
    ensures |r| == n && forall i :: i in r <==> 0 <= i < n
  {
    if n == 0 then {} else Below(n - 1) + {n - 1}
  }

  lemma SameSizeSubset(a: set<int>, b: set<int>)
    requires a <= b
    ensures |a| <= |b| && (|a| == |b| <==> a == b)
  {
    assert b == a + (b - a);
    assert |b| == |a| + |b - a|;
  }

  /** No two rows share an index, so there are as many indices as rows. */
  lemma {:induction false} UsedSize(rows: Rows)
    requires Inv(rows)
    ensures |Used(rows)| == |rows|
    decreases |rows|
  {
    if rows == map[] {
      assert Used(rows) == {};
    } else {
      var n :| n in rows;
      var rest := rows - {n};
      assert |rest| == |rows| - 1 by { assert rest.Keys == rows.Keys - {n}; }
      UsedSize(rest);
      assert Used(rows) == Used(rest) + {rows[n].index} by {
        forall m | m in rows && m != n ensures rows[m].index in Used(rest) { assert m in rest && rest[m] == rows[m]; }
      }
      assert rows[n].index !in Used(rest);
    }
  }

  /** A fresh name is refused exactly when 1296 rows are registered, and there are never more. */
  lemma FullExactly(rows: Rows, name: string, backend: Backend, now: int)
    requires Inv(rows) && name !in rows
    ensures |rows| <= Ports.MAX_PORT_INDEX + 1
    ensures Added(rows, name, backend, now).Err? <==> |rows| == Ports.MAX_PORT_INDEX + 1
  {
    var all := Below(Ports.MAX_PORT_INDEX + 1);
    UsedSize(rows);
    forall i | i in Used(rows) ensures i in all {}
    SameSizeSubset(Used(rows), all);
    Ports.ExhaustedExactly(Used(rows));
  }

  // ---- Indices that a read frees ------------------------------------------------------

  /** After a read exactly the indices of the rows with a dict backend are taken. */
  lemma UsedAfterRead(c: Codec, doc: Json, i: int)
    requires Accepted(c, doc)
    ensures i in Used(Parse(c, doc))
      <==> exists n :: n in RawRows(doc) && Shaped(RawRows(doc)[n]) && RowIndex(c, RawRows(doc)[n]) == Some(i)
  {
    var rows := Parse(c, doc);
    if i in Used(rows) {
      var n :| n in rows && rows[n].index == i;
      ParsedRow(c, doc, n);
    }
    if n :| n in RawRows(doc) && Shaped(RawRows(doc)[n]) && RowIndex(c, RawRows(doc)[n]) == Some(i) {
      ParsedRow(c, doc, n);
      assert rows[n].index == i;
    }
  }

  /** The index of a row whose backend is no dict goes to the next instance that is added. */
  lemma FreedIndexIsReused(c: Codec, name: string, created: int, other: string, backend: Backend, now: int)
    requires Sound(c)
    ensures var row := Obj(map["backend" := Null, "index" := Num(0), "created_at" := Str(c.iso(created))]);
            var doc := Obj(map["version" := Num(3), "instances" := Obj(map[name := row])]);
            && RowIndex(c, row) == Some(0) && Accepted(c, doc)
            && Added(Parse(c, doc), other, backend, now) == Ok(map[other := Meta(backend, 0, now)])
  {
    var row := Obj(map["backend" := Null, "index" := Num(0), "created_at" := Str(c.iso(created))]);
    var doc := Obj(map["version" := Num(3), "instances" := Obj(map[name := row])]);
    assert RawRows(doc) == map[name := row] && row.fields["backend"] == Null && !Shaped(row);
    assert row.fields["index"] == Num(0);
    assert Parse(c, doc) == map[];
    assert Used(Parse(c, doc)) == {};
  }

  /** Flipping the kind there and back keeps the directory but drops a stealth layout. */
  lemma ReconcileThereAndBack(rows: Rows, name: string)
    requires name in rows && rows[name].backend.Redroid?
    ensures var back := Reconciled(Reconciled(rows, name, true), name, false);
      back == rows[name := rows[name].(backend := Redroid(rows[name].backend.path, map[]))]
      && (back == rows <==> rows[name].backend.stealth == map[])
  {
    if rows[name].backend.stealth == map[] {
      assert rows == rows[name := rows[name].(backend := Redroid(rows[name].backend.path, map[]))];
    } else {
      assert Reconciled(Reconciled(rows, name, true), name, false)[name] != rows[name];
    }
  }

  /** The reader's loop over the rows of a document; `None` on the first unsalvageable one. */
  method ParseRows(c: Codec, raw: map<string, Json>) returns (r: Option<Rows>)
    ensures r.Some? <==> forall n | n in raw && Shaped(raw[n]) :: UsableMeta(c, raw[n])
    ensures r.Some? ==> r.value == map n | n in raw && Shaped(raw[n]) :: ParseRow(c, raw[n]).value
  {
    var rows: Rows := map[];
    var todo := raw.Keys;
    while todo != {}
      invariant todo <= raw.Keys
      invariant forall n | n in raw.Keys - todo && Shaped(raw[n]) :: UsableMeta(c, raw[n])
      invariant rows.Keys == set n | n in raw && n !in todo && Shaped(raw[n])
      invariant forall n | n in rows :: rows[n] == ParseRow(c, raw[n]).value
    {
      var name :| name in todo;
      todo := todo - {name};
      if Shaped(raw[name]) {
        var meta := ParseRow(c, raw[name]);
        if meta.None? { return None; }
        rows := rows[name := meta.value];
      }
    }
    return Some(rows);
  }

  // ---- The registry file --------------------------------------------------------

  datatype File = Absent | Garbage | Doc(json: Json)

  class RegistryFile {
    const codec: Codec
    var file: File
    var backup: Option<File>

    constructor (codec: Codec)
      requires Sound(codec)
      ensures Valid() && this.codec == codec && file == Absent && backup == None
    {
      this.codec := codec;
      file, backup := Absent, None;
    }

    ghost predicate Valid() { Sound(codec) }

    predicate Readable()
      reads this
    {
      file.Absent? || (file.Doc? && Accepted(codec, file.json))
    }

    /** The rows a reader is given. */
    function Rows(): Rows
      reads this
    {
      if file.Doc? && Accepted(codec, file.json) then Parse(codec, file.json) else map[]
    }

    method Lock()
      modifies this`file
      requires Valid()
      ensures Rows() == old(Rows())
      ensures file == if old(file).Absent? then Doc(ToJson(codec, map[])) else old(file)
    {
      if file.Absent? {
        file := Doc(ToJson(codec, map[]));
        WriteThenRead(codec, map[]);
      }
    }

    /** An unreadable file is renamed to the backup and reads as empty. */
    method Read() returns (rows: Rows)
      modifies this
      ensures rows == old(Rows()) == Rows() && Canonical(rows)
      ensures old(Readable()) ==> file == old(file) && backup == old(backup)
      ensures !old(Readable()) ==> file == Absent && backup == Some(old(file))
      ensures old(file).Doc? && old(file.json).Obj?
              && ("version" !in old(file.json.fields) || old(file.json.fields)["version"] != Num(3)) ==>
                file == Absent && backup == Some(old(file)) && rows == map[]
    {
      hide ParseRow, UsableMeta, Shaped, CanonicalBackend, RawRows;
      if file.Absent? { return map[]; }
      var parsed: Option<Rows> := None;
      if file.Doc? && Envelope(file.json) {
        parsed := ParseRows(codec, RawRows(file.json));
      }
      if parsed.None? {
        file, backup := Absent, Some(file);
        return map[];
      }
      rows := parsed.value;
      ParsedCanonical(codec, file.json);
    }

    method Write(rows: Rows)
      requires Valid()
      modifies this`file
      ensures file == Doc(ToJson(codec, rows))
      ensures Canonical(rows) ==> Rows() == rows
    {
      hide RowJson, CanonicalBackend, UsableMeta, Shaped, ParseRow;
      var out: map<string, Json> := map[];
      var todo := rows.Keys;
      while todo != {}
        invariant todo <= rows.Keys
        invariant out == map n | n in rows && n !in todo :: RowJson(codec, rows[n])
      {
        var name :| name in todo;
        todo := todo - {name};
        out := out[name := RowJson(codec, rows[name])];
      }
      assert out == map n | n in rows :: RowJson(codec, rows[n]);
      file := Doc(Obj(map["version" := Num(3), "instances" := Obj(out)]));
      if Canonical(rows) { WriteThenRead(codec, rows); }
    }

    method AddAllocating(name: string, backend: Backend, now: int) returns (r: Result<int, AddError>)
      requires Valid() && CanonicalBackend(backend)
      modifies this
      ensures match Added(old(Rows()), name, backend, now)
              case Ok(rows) => r.Ok? && Rows() == rows == old(Rows())[name := Meta(backend, r.value, now)]
              case Err(e) => r == Err(e) && Rows() == old(Rows())
      ensures r.Err? && old(file).Doc? && old(Readable()) ==> file == old(file)
      ensures Inv(old(Rows())) ==> Inv(Rows())
    {
      hide Inv, Accepted, ParseRow, RowJson;
      Lock();
      var rows := Read();
      if Inv(rows) { AddKeepsInv(rows, name, backend, now); }
      if name in rows { return Err(NameTaken); }
      var index := Ports.LowestFreeIndex(Used(rows));
      if index > Ports.MAX_PORT_INDEX { return Err(OutOfIndices); }
      rows := rows[name := Meta(backend, index, now)];
      Write(rows);
      return Ok(index);
    }

    method Remove(name: string)
      requires Valid()
      modifies this
      ensures Rows() == old(Rows()) - {name}
    {
      Lock();
      var rows := Read();
      Write(rows - {name});
    }

    method SetStealthPaths(name: string, stealth: map<string, string>) returns (ok: bool)
      requires Valid()
      modifies this
      ensures ok == (name in old(Rows()) && old(Rows())[name].backend.Redroid?)
      ensures ok ==> var was := old(Rows())[name];
                     Rows() == old(Rows())[name := Meta(Redroid(was.backend.path, stealth), was.index, was.createdAt)]
      ensures !ok ==> Rows() == old(Rows())
      ensures Rows() == WithStealth(old(Rows()), name, stealth)
    {
      Lock();
      var rows := Read();
      if name !in rows || !rows[name].backend.Redroid? { return false; }
      Write(WithStealth(rows, name, stealth));
      return true;
    }

    method ReconcileBackendKind(name: string, wantVm: bool) returns (flipped: bool)
      requires Valid()
      modifies this
      ensures flipped <==> name in old(Rows()) && var was := old(Rows())[name].backend;
                           if wantVm then was.Redroid? else was.Vm?
      ensures Rows() == Reconciled(old(Rows()), name, wantVm)
    {
      hide ParseRow, RowJson, Accepted;
      Lock();
      var rows := Read();
      if name !in rows { return false; }
      var backend := rows[name].backend;
      if !backend.Redroid? && !backend.Vm? { return false; }
      if backend.Vm? == wantVm { return false; }
      var flippedTo := if wantVm then Vm(backend.path) else Redroid(backend.path, map[]);
      Write(rows[name := rows[name].(backend := flippedTo)]);
      return true;
    }
  }
}
