/**
  * The script value objects of frontend/scripts.py: `Script`,
  * `ScriptEntryProgram` and `ScriptEntryFile`, their validating
  * constructors, their equality, their dictionary projection (`__iter__`)
  * and the JSON round trip. JSON is the dictionary layer: `json.dumps`
  * followed by `json.loads` gives back the same dictionary, so `to_json`
  * returns the dictionary and `from_json` takes the decoded value.
  */
module Scripts {
  import opened Wrappers

  /** The Python values that reach the constructors: JSON data plus entry objects. */
  datatype Value =
    | Null
    | Bool(b: bool)
    | Int(i: int)
    | Str(s: string)
    | List(items: seq<Value>)
    | Dict(fields: map<string, Value>)
    | ProgramObj(program: ProgramEntry)
    | FileObj(file: FileEntry)

  /** The exceptions raised: `ValueError(message)`, `KeyError(key)`, and `TypeError` (bad `**kwargs`, non-dict subscript). */
  datatype PyError = ValueError(message: string) | KeyError(key: string) | TypeError

  /** `isinstance(v, int)`: a `bool` is an `int` in Python. */
  predicate IsInt(v: Value) {
    v.Int? || v.Bool?
  }

  function IntOf(v: Value): int
    requires IsInt(v)
  {
    if v.Int? then v.i else if v.b then 1 else 0
  }

  /** `isinstance(v, str) or isinstance(v, int)`. */
  predicate IsIdent(v: Value) {
    IsInt(v) || v.Str?
  }

  /** The value Python's `==` compares: `True == 1` and `False == 0`. */
  function Canon(v: Value): Value {
    if v.Bool? then Int(IntOf(v)) else v
  }

  /* ---------------- entries ---------------- */

  datatype ProgramEntry = ProgramEntry(index: Value, program: Value, slave: Value)

  datatype FileEntry = FileEntry(index: Value, filesystem: Value, slave: Value)

  const IndexNotInt := "Index has to be an integer."
  const IndexNegative := "Use positive or null for the index."

  /** The checks both entry constructors make, in their order; None when all pass. */
  function EntryFieldsError(index: Value, target: Value, slave: Value): (e: Option<PyError>)
    ensures e.None? <==> IsInt(index) && IntOf(index) >= 0 && IsIdent(target) && IsIdent(slave)
  {
    if !IsInt(index) then Some(ValueError(IndexNotInt))
    else if IntOf(index) < 0 then Some(ValueError(IndexNegative))
    else if !IsIdent(target) then Some(ValueError("Name has to be a string or int."))
    else if !IsIdent(slave) then Some(ValueError("Slave has to be a string or integer"))
    else None
  }

  /** `ScriptEntryProgram(index, program, slave)`. */
  function NewProgramEntry(index: Value, program: Value, slave: Value): (r: Result<ProgramEntry, PyError>)
    ensures r.Ok? <==> IsInt(index) && IntOf(index) >= 0 && IsIdent(program) && IsIdent(slave)
    ensures r.Ok? ==> r.value == ProgramEntry(index, program, slave)
  {
    match EntryFieldsError(index, program, slave)
    case Some(e) => Err(e)
    case None => Ok(ProgramEntry(index, program, slave))
  }

  /** `ScriptEntryFile(index, filesystem, slave)`. */
  function NewFileEntry(index: Value, filesystem: Value, slave: Value): (r: Result<FileEntry, PyError>)
    ensures r.Ok? <==> IsInt(index) && IntOf(index) >= 0 && IsIdent(filesystem) && IsIdent(slave)
    ensures r.Ok? ==> r.value == FileEntry(index, filesystem, slave)
  {
    match EntryFieldsError(index, filesystem, slave)
    case Some(e) => Err(e)
    case None => Ok(FileEntry(index, filesystem, slave))
  }

  /** The index is checked first: a non-int index and a negative one are rejected whatever the other fields hold. */
  lemma EntryIndexCheckedFirst(index: Value, target: Value, slave: Value)
    ensures !IsInt(index) ==>
      NewProgramEntry(index, target, slave) == Err(ValueError(IndexNotInt))
      && NewFileEntry(index, target, slave) == Err(ValueError(IndexNotInt))
    ensures IsInt(index) && IntOf(index) < 0 ==>
      NewProgramEntry(index, target, slave) == Err(ValueError(IndexNegative))
      && NewFileEntry(index, target, slave) == Err(ValueError(IndexNegative))
  {
  }

  predicate ValidProgramEntry(e: ProgramEntry) {
    NewProgramEntry(e.index, e.program, e.slave).Ok?
  }

  predicate ValidFileEntry(e: FileEntry) {
    NewFileEntry(e.index, e.filesystem, e.slave).Ok?
  }

  /** What `__eq__` compares: the three fields under Python's `==`. */
  function ProgramKey(e: ProgramEntry): (Value, Value, Value) {
    (Canon(e.index), Canon(e.program), Canon(e.slave))
  }

  function FileKey(e: FileEntry): (Value, Value, Value) {
    (Canon(e.index), Canon(e.filesystem), Canon(e.slave))
  }

  /** `f` applied to each element, in order. */
  function MapSeq<A, B>(f: A -> B, s: seq<A>): (t: seq<B>)
    ensures |t| == |s| && forall k | 0 <= k < |s| :: t[k] == f(s[k])
  {
    if s == [] then [] else [f(s[0])] + MapSeq(f, s[1..])
  }

  function ProgramKeys(es: seq<ProgramEntry>): seq<(Value, Value, Value)> {
    MapSeq(ProgramKey, es)
  }

  function FileKeys(es: seq<FileEntry>): seq<(Value, Value, Value)> {
    MapSeq(FileKey, es)
  }

  /** An entry is equal to one with `True`/`False` where it has 1/0, as in Python. */
  lemma BoolEqualsInt(e: ProgramEntry)
    requires e.index == Int(1)
    ensures ProgramKey(e) == ProgramKey(e.(index := Bool(true)))
  {
  }

  /* ---------------- Script ---------------- */

  datatype Script = Script(name: string, programs: seq<ProgramEntry>, filesystems: seq<FileEntry>)

  predicate AllProgramObjs(items: seq<Value>) {
    forall k | 0 <= k < |items| :: items[k].ProgramObj?
  }

  predicate AllFileObjs(items: seq<Value>) {
    forall k | 0 <= k < |items| :: items[k].FileObj?
  }

  function ProgramsOf(items: seq<Value>): (es: seq<ProgramEntry>)
    requires AllProgramObjs(items)
    ensures |es| == |items| && forall k | 0 <= k < |items| :: es[k] == items[k].program
  {
    seq(|items|, k requires 0 <= k < |items| => items[k].program)
  }

  function FilesOf(items: seq<Value>): (es: seq<FileEntry>)
    requires AllFileObjs(items)
    ensures |es| == |items| && forall k | 0 <= k < |items| :: es[k] == items[k].file
  {
    seq(|items|, k requires 0 <= k < |items| => items[k].file)
  }

  /** `Script(name, programs, filesystems)`: the lists are checked first, then the total, then the name. */
  function NewScript(name: Value, programs: Value, filesystems: Value): (r: Result<Script, PyError>)
    ensures r.Ok? <==>
      && programs.List? && AllProgramObjs(programs.items)
      && filesystems.List? && AllFileObjs(filesystems.items)
      && |programs.items| + |filesystems.items| >= 1
      && name.Str?
    ensures r.Ok? ==>
      r.value.name == name.s
      && r.value.programs == ProgramsOf(programs.items) && r.value.filesystems == FilesOf(filesystems.items)
  {
    if !programs.List? then Err(ValueError("Program has to be a list."))
    else if !AllProgramObjs(programs.items) then Err(ValueError("All list elements has to be ScriptEntryProgram."))
    else if !filesystems.List? then Err(ValueError("filesystems has to be a list."))
    else if !AllFileObjs(filesystems.items) then Err(ValueError("All list elements has to be ScriptEntryFile."))
    else if |filesystems.items| + |programs.items| < 1 then Err(ValueError("Add a filesystem or a program to the script."))
    else if !name.Str? then Err(ValueError("Name has to be a string."))
    else Ok(Script(name.s, ProgramsOf(programs.items), FilesOf(filesystems.items)))
  }

  /** A script as its constructor leaves it: valid entries, at least one of them. */
  predicate ValidScript(s: Script) {
    && |s.programs| + |s.filesystems| >= 1
    && (forall k | 0 <= k < |s.programs| :: ValidProgramEntry(s.programs[k]))
    && (forall k | 0 <= k < |s.filesystems| :: ValidFileEntry(s.filesystems[k]))
  }

  /* ---------------- Script.__eq__ ---------------- */

  /** The position of the first element equal to `x`. */
  function FirstIndex<T(==)>(s: seq<T>, x: T): (i: nat)
    requires x in s
    ensures i < |s| && s[i] == x
  {
    if s[0] == x then 0 else 1 + FirstIndex(s[1..], x)
  }

  /** `list.remove(x)`: drops the first element equal to `x`. */
  function RemoveFirst<T(==)>(s: seq<T>, x: T): (t: seq<T>)
    requires x in s
    ensures multiset(t) == multiset(s) - multiset{x}
  {
    var i := FirstIndex(s, x);
    assert s == s[..i] + [x] + s[i + 1..];
    s[..i] + s[i + 1..]
  }

  /**
    * The copy-and-remove loop of `__eq__`: for each item of `mine`, remove
    * one equal item from a copy of `theirs` if there is one. What remains is
    * `theirs` less `mine`, counted with multiplicity.
    */
  method RemoveMatched<T(==)>(mine: seq<T>, theirs: seq<T>) returns (rest: seq<T>)
    ensures multiset(rest) == multiset(theirs) - multiset(mine)
  {
    rest := theirs;
    for k := 0 to |mine|
      invariant multiset(rest) == multiset(theirs) - multiset(mine[..k])
    {
      var item := mine[k];
      assert mine[..k + 1] == mine[..k] + [item];
      if item in rest {
        rest := RemoveFirst(rest, item);
      } else {
        assert multiset(rest)[item] == 0;
      }
    }
    assert mine[..|mine|] == mine;
  }

  /** A multiset difference is empty exactly when the first is contained in the second. */
  lemma EmptyDifference<T>(a: multiset<T>, b: multiset<T>)
    ensures |a - b| == 0 <==> a <= b
  {
    if |a - b| == 0 {
      assert a - b == multiset{};
      forall x | x in a
        ensures a[x] <= b[x]
      {
        assert (a - b)[x] == 0;
      }
    } else {
      var x :| x in a - b;
      assert a[x] > b[x];
    }
  }

  /**
    * `Script.__eq__(self, other)`: equal names, and every entry of `other`
    * matched by its own entry of `self`, in any order; extra entries of
    * `self` do not matter.
    */
  ghost predicate ScriptEq(self: Script, other: Script) {
    && self.name == other.name
    && multiset(ProgramKeys(other.programs)) <= multiset(ProgramKeys(self.programs))
    && multiset(FileKeys(other.filesystems)) <= multiset(FileKeys(self.filesystems))
  }

  method ScriptEquals(self: Script, other: Script) returns (eq: bool)
    ensures eq <==> ScriptEq(self, other)
  {
    if self.name != other.name {
      return false;
    }
    var restPrograms := RemoveMatched(ProgramKeys(self.programs), ProgramKeys(other.programs));
    var restFiles := RemoveMatched(FileKeys(self.filesystems), FileKeys(other.filesystems));
    EmptyDifference(multiset(ProgramKeys(other.programs)), multiset(ProgramKeys(self.programs)));
    EmptyDifference(multiset(FileKeys(other.filesystems)), multiset(FileKeys(self.filesystems)));
    eq := |restPrograms| == 0 && |restFiles| == 0;
  }

  /** Equality ignores the order of the entries: a script equals any reordering of itself, both ways. */
  lemma ScriptEqReordered(s: Script, programs: seq<ProgramEntry>, filesystems: seq<FileEntry>)
    requires multiset(programs) == multiset(s.programs) && multiset(filesystems) == multiset(s.filesystems)
    ensures ScriptEq(s, s.(programs := programs, filesystems := filesystems))
    ensures ScriptEq(s.(programs := programs, filesystems := filesystems), s)
  {
    MapSeqPermutation(ProgramKey, programs, s.programs);
    MapSeqPermutation(FileKey, filesystems, s.filesystems);
  }

  /** Taking one equal element out of two permutations leaves permutations. */
  lemma PermutationTail<A>(a: seq<A>, b: seq<A>, i: nat)
    requires multiset(a) == multiset(b) && a != [] && i < |b| && b[i] == a[0]
    ensures multiset(a[1..]) == multiset(b[..i] + b[i + 1..])
  {
    assert a == [a[0]] + a[1..];
    assert b == b[..i] + [b[i]] + b[i + 1..];
    assert multiset(b) == multiset(b[..i]) + multiset{b[i]} + multiset(b[i + 1..]);
    calc {
      multiset(a[1..]);
      multiset(a) - multiset{a[0]};
      multiset(b) - multiset{a[0]};
      multiset(b[..i] + b[i + 1..]);
    }
  }

  /** Mapping a sequence with one element taken out. */
  lemma MapSeqSplit<A, B>(f: A -> B, s: seq<A>, i: nat)
    requires i < |s|
    ensures multiset(MapSeq(f, s)) == multiset{f(s[i])} + multiset(MapSeq(f, s[..i] + s[i + 1..]))
  {
    MapSeqAppend(f, s[..i], s[i..]);
    MapSeqAppend(f, s[..i], s[i + 1..]);
    assert s[..i] + s[i..] == s;
    assert MapSeq(f, s[i..]) == [f(s[i])] + MapSeq(f, s[i + 1..]) by {
      assert s[i..][1..] == s[i + 1..];
    }
  }

  /** Mapping a concatenation maps each part. */
  lemma {:induction false} MapSeqAppend<A, B>(f: A -> B, a: seq<A>, b: seq<A>)
    ensures MapSeq(f, a + b) == MapSeq(f, a) + MapSeq(f, b)
    decreases |a|
  {
    if a != [] {
      assert (a + b)[1..] == a[1..] + b;
      MapSeqAppend(f, a[1..], b);
    } else {
      assert a + b == b;
    }
  }

  /** Mapping a permutation gives a permutation. */
  lemma {:induction false} MapSeqPermutation<A, B>(f: A -> B, a: seq<A>, b: seq<A>)
    requires multiset(a) == multiset(b)
    ensures multiset(MapSeq(f, a)) == multiset(MapSeq(f, b))
    decreases |a|
  {
    if a != [] {
      assert a[0] in b by { assert a[0] in multiset(b); }
      var i :| 0 <= i < |b| && b[i] == a[0];
      PermutationTail(a, b, i);
      MapSeqPermutation(f, a[1..], b[..i] + b[i + 1..]);
      MapSeqSplit(f, a, 0);
      assert a[..0] + a[1..] == a[1..];
      MapSeqSplit(f, b, i);
    } else {
      assert |b| == |multiset(b)| == 0;
    }
  }

  /** Equality is not symmetric: a script with an extra entry equals the smaller one, not the other way round. */
  lemma ScriptEqAsymmetric(e: ProgramEntry, f: ProgramEntry)
    requires ProgramKey(e) != ProgramKey(f)
    ensures ScriptEq(Script("s", [e, f], []), Script("s", [e], []))
    ensures !ScriptEq(Script("s", [e], []), Script("s", [e, f], []))
  {
    assert ProgramKeys([e, f]) == [ProgramKey(e), ProgramKey(f)];
    assert ProgramKeys([e]) == [ProgramKey(e)];
    assert multiset(ProgramKeys([e, f]))[ProgramKey(f)] == 1;
    assert multiset(ProgramKeys([e]))[ProgramKey(f)] == 0;
  }

  /* ---------------- __iter__, to_json, from_json ---------------- */

  /** `dict(entry)`: its three attributes by name. */
  function ProgramEntryDict(e: ProgramEntry): map<string, Value> {
    map["index" := e.index, "program" := e.program, "slave" := e.slave]
  }

  function FileEntryDict(e: FileEntry): map<string, Value> {
    map["index" := e.index, "filesystem" := e.filesystem, "slave" := e.slave]
  }

  function ProgramDicts(es: seq<ProgramEntry>): seq<Value> {
    MapSeq(e => Dict(ProgramEntryDict(e)), es)
  }

  function FileDicts(es: seq<FileEntry>): seq<Value> {
    MapSeq(e => Dict(FileEntryDict(e)), es)
  }

  /** `dict(script)`: the name, and one dictionary per entry in list order. */
  function ScriptDict(s: Script): (d: map<string, Value>)
    ensures d.Keys == {"name", "programs", "filesystems"}
    ensures d["name"] == Str(s.name)
    ensures d["programs"].List? && |d["programs"].items| == |s.programs|
    ensures forall k | 0 <= k < |s.programs| :: d["programs"].items[k] == Dict(ProgramEntryDict(s.programs[k]))
    ensures d["filesystems"].List? && |d["filesystems"].items| == |s.filesystems|
    ensures forall k | 0 <= k < |s.filesystems| :: d["filesystems"].items[k] == Dict(FileEntryDict(s.filesystems[k]))
  {
    map[
      "name" := Str(s.name),
      "programs" := List(ProgramDicts(s.programs)),
      "filesystems" := List(FileDicts(s.filesystems))
    ]
  }

  /** The projections hold exactly the attributes, under their names. */
  lemma DictProjections(e: ProgramEntry, f: FileEntry)
    ensures ProgramEntryDict(e).Keys == {"index", "program", "slave"}
    ensures ProgramEntryDict(e)["index"] == e.index && ProgramEntryDict(e)["program"] == e.program
         && ProgramEntryDict(e)["slave"] == e.slave
    ensures FileEntryDict(f).Keys == {"index", "filesystem", "slave"}
    ensures FileEntryDict(f)["index"] == f.index && FileEntryDict(f)["filesystem"] == f.filesystem
         && FileEntryDict(f)["slave"] == f.slave
  {
  }

  /** `data[key]`: a TypeError on anything but a dictionary, a KeyError on a missing key. */
  function Lookup(data: Value, key: string): Result<Value, PyError> {
    if !data.Dict? then Err(TypeError)
    else if key !in data.fields then Err(KeyError(key))
    else Ok(data.fields[key])
  }

  /**
    * `ScriptEntryProgram.from_json`: the three keys are read in order, then
    * the constructor runs; an entry read is the one whose dictionary the
    * data holds.
    */
  function ProgramEntryFromJson(data: Value): (r: Result<ProgramEntry, PyError>)
    ensures !data.Dict? ==> r == Err(TypeError)
    ensures data.Dict? && "index" !in data.fields ==> r == Err(KeyError("index"))
    ensures r.Ok? ==> data.Dict? && ValidProgramEntry(r.value)
    ensures r.Ok? ==> forall key | key in ProgramEntryDict(r.value) ::
      key in data.fields && data.fields[key] == ProgramEntryDict(r.value)[key]
  {
    var index :- Lookup(data, "index");
    var program :- Lookup(data, "program");
    var slave :- Lookup(data, "slave");
    NewProgramEntry(index, program, slave)
  }

  function FileEntryFromJson(data: Value): Result<FileEntry, PyError> {
    var index :- Lookup(data, "index");
    var filesystem :- Lookup(data, "filesystem");
    var slave :- Lookup(data, "slave");
    NewFileEntry(index, filesystem, slave)
  }

  /**
    * `ScriptEntryProgram(**program)`: the dictionary must hold exactly the
    * parameter names, so an entry built is the one whose dictionary the item is.
    */
  function ProgramEntryFromKwargs(item: Value): (r: Result<ProgramEntry, PyError>)
    ensures !item.Dict? ==> r == Err(TypeError)
    ensures r.Ok? ==> item == Dict(ProgramEntryDict(r.value)) && ValidProgramEntry(r.value)
  {
    if !item.Dict? || item.fields.Keys != {"index", "program", "slave"} then Err(TypeError)
    else NewProgramEntry(item.fields["index"], item.fields["program"], item.fields["slave"])
  }

  function FileEntryFromKwargs(item: Value): Result<FileEntry, PyError> {
    if !item.Dict? || item.fields.Keys != {"index", "filesystem", "slave"} then Err(TypeError)
    else NewFileEntry(item.fields["index"], item.fields["filesystem"], item.fields["slave"])
  }

  /** The list comprehension: entry objects in order, or the first exception. */
  function ProgramObjsFromKwargs(items: seq<Value>): (r: Result<seq<Value>, PyError>)
    ensures r.Ok? ==> AllProgramObjs(r.value) && |r.value| == |items|
    ensures r.Ok? ==> forall k | 0 <= k < |items| :: items[k] == Dict(ProgramEntryDict(r.value[k].program))
  {
    if items == [] then Ok([])
    else
      var e :- ProgramEntryFromKwargs(items[0]);
      var rest :- ProgramObjsFromKwargs(items[1..]);
      Ok([ProgramObj(e)] + rest)
  }

  function FileObjsFromKwargs(items: seq<Value>): (r: Result<seq<Value>, PyError>)
    ensures r.Ok? ==> AllFileObjs(r.value) && |r.value| == |items|
    ensures r.Ok? ==> forall k | 0 <= k < |items| :: items[k] == Dict(FileEntryDict(r.value[k].file))
  {
    if items == [] then Ok([])
    else
      var e :- FileEntryFromKwargs(items[0]);
      var rest :- FileObjsFromKwargs(items[1..]);
      Ok([FileObj(e)] + rest)
  }

  /**
    * `Script.from_json` on the decoded dictionary: a script read is the one
    * whose `dict` the data holds, key by key.
    */
  function ScriptFromJson(data: Value): (r: Result<Script, PyError>)
    ensures r.Ok? ==> data.Dict? && forall key | key in ScriptDict(r.value) ::
      key in data.fields && data.fields[key] == ScriptDict(r.value)[key]
  {
    var programs :- Lookup(data, "programs");
    if !programs.List? then Err(ValueError("Programs has to be a list")) else
    var filesystems :- Lookup(data, "filesystems");
    if !filesystems.List? then Err(ValueError("filesystems has to be a list")) else
    var name :- Lookup(data, "name");
    var programObjs :- ProgramObjsFromKwargs(programs.items);
    var fileObjs :- FileObjsFromKwargs(filesystems.items);
    NewScript(name, List(programObjs), List(fileObjs))
  }

  /** `from_json` raises ValueError when the programs or the filesystems are not a list. */
  lemma ScriptFromJsonNeedsLists(data: Value)
    requires data.Dict? && "programs" in data.fields && "filesystems" in data.fields
    ensures !data.fields["programs"].List? ==> ScriptFromJson(data) == Err(ValueError("Programs has to be a list"))
    ensures data.fields["programs"].List? && !data.fields["filesystems"].List? ==>
      ScriptFromJson(data) == Err(ValueError("filesystems has to be a list"))
  {
  }

  /** An entry read back from its JSON dictionary is the entry. */
  lemma ProgramEntryRoundTrip(e: ProgramEntry)
    requires ValidProgramEntry(e)
    ensures ProgramEntryFromJson(Dict(ProgramEntryDict(e))) == Ok(e)
    ensures ProgramEntryFromKwargs(Dict(ProgramEntryDict(e))) == Ok(e)
  {
  }

  lemma FileEntryRoundTrip(e: FileEntry)
    requires ValidFileEntry(e)
    ensures FileEntryFromJson(Dict(FileEntryDict(e))) == Ok(e)
    ensures FileEntryFromKwargs(Dict(FileEntryDict(e))) == Ok(e)
  {
  }

  lemma {:induction false} ProgramListRoundTrip(es: seq<ProgramEntry>)
    requires forall k | 0 <= k < |es| :: ValidProgramEntry(es[k])
    ensures var r := ProgramObjsFromKwargs(ProgramDicts(es));
      r.Ok? && ProgramsOf(r.value) == es
  {
    var items := ProgramDicts(es);
    if es != [] {
      ProgramEntryRoundTrip(es[0]);
      ProgramListRoundTrip(es[1..]);
      assert items[1..] == ProgramDicts(es[1..]);
    }
    var r := ProgramObjsFromKwargs(items);
    forall k | 0 <= k < |es|
      ensures ProgramsOf(r.value)[k] == es[k]
    {
      var e := r.value[k].program;
      assert Dict(ProgramEntryDict(e)) == Dict(ProgramEntryDict(es[k]));
      DictProjections(e, FileEntry(Null, Null, Null));
      DictProjections(es[k], FileEntry(Null, Null, Null));
    }
  }

  lemma {:induction false} FileListRoundTrip(es: seq<FileEntry>)
    requires forall k | 0 <= k < |es| :: ValidFileEntry(es[k])
    ensures var r := FileObjsFromKwargs(FileDicts(es));
      r.Ok? && FilesOf(r.value) == es
  {
    var items := FileDicts(es);
    if es != [] {
      FileEntryRoundTrip(es[0]);
      FileListRoundTrip(es[1..]);
      assert items[1..] == FileDicts(es[1..]);
      var rest := FileObjsFromKwargs(items[1..]).value;
      assert FileObjsFromKwargs(items).value == [FileObj(es[0])] + rest;
      assert FilesOf([FileObj(es[0])] + rest) == [es[0]] + FilesOf(rest);
      assert es == [es[0]] + es[1..];
    }
  }

  /** `Script.from_json(script.to_json())` gives the script back. */
  lemma ScriptRoundTrip(s: Script)
    requires ValidScript(s)
    ensures ScriptFromJson(Dict(ScriptDict(s))) == Ok(s)
  {
    ProgramListRoundTrip(s.programs);
    FileListRoundTrip(s.filesystems);
    var d := ScriptDict(s);
    var programs := ProgramObjsFromKwargs(ProgramDicts(s.programs));
    var files := FileObjsFromKwargs(FileDicts(s.filesystems));
    assert ScriptFromJson(Dict(d)) == NewScript(Str(s.name), List(programs.value), List(files.value));
  }

  /* ---------------- from_query ---------------- */

  /**
    * A `ScriptGraphPrograms` or `ScriptGraphFiles` row as `from_query`
    * reads it: the index, and the id and name of the program or
    * filesystem and of its slave.
    */
  datatype GraphRow = GraphRow(index: int, targetId: int, targetName: string, slaveId: int, slaveName: string)

  /** The slave and the program (or filesystem) identifiers, by the requested type; the slave type is checked first. */
  function SelectIdents(row: GraphRow, slavesType: string, programsType: string): (r: Result<(Value, Value), PyError>)
    ensures r.Ok? <==> (slavesType == "int" || slavesType == "str") && (programsType == "int" || programsType == "str")
    ensures r.Ok? ==> r.value.0 in {Int(row.targetId), Str(row.targetName)} && (r.value.0.Int? <==> programsType == "int")
    ensures r.Ok? ==> r.value.1 in {Int(row.slaveId), Str(row.slaveName)} && (r.value.1.Int? <==> slavesType == "int")
  {
    if slavesType != "int" && slavesType != "str" then Err(ValueError("Slave_type has to be int or str."))
    else if programsType != "int" && programsType != "str" then Err(ValueError("Program_type has to be int or str."))
    else
      var slave := if slavesType == "int" then Int(row.slaveId) else Str(row.slaveName);
      var target := if programsType == "int" then Int(row.targetId) else Str(row.targetName);
      Ok((target, slave))
  }

  /** `ScriptEntryProgram.from_query`. */
  function ProgramEntryFromQuery(row: GraphRow, slavesType: string, programsType: string): Result<ProgramEntry, PyError> {
    var (program, slave) :- SelectIdents(row, slavesType, programsType);
    NewProgramEntry(Int(row.index), program, slave)
  }

  /** `ScriptEntryFile.from_query`. */
  function FileEntryFromQuery(row: GraphRow, slavesType: string, filesystemType: string): Result<FileEntry, PyError> {
    var (filesystem, slave) :- SelectIdents(row, slavesType, filesystemType);
    NewFileEntry(Int(row.index), filesystem, slave)
  }

  /**
    * `from_query` takes the id for 'int' and the name for 'str'; any other
    * type string is a ValueError, the slave type's before the program type's.
    */
  lemma FromQuerySpec(row: GraphRow, slavesType: string, programsType: string)
    ensures slavesType != "int" && slavesType != "str" ==>
      ProgramEntryFromQuery(row, slavesType, programsType) == Err(ValueError("Slave_type has to be int or str."))
    ensures (slavesType == "int" || slavesType == "str") && programsType != "int" && programsType != "str" ==>
      ProgramEntryFromQuery(row, slavesType, programsType) == Err(ValueError("Program_type has to be int or str."))
    ensures (slavesType == "int" || slavesType == "str") && (programsType == "int" || programsType == "str") ==>
      if row.index < 0 then
        ProgramEntryFromQuery(row, slavesType, programsType) == Err(ValueError(IndexNegative))
      else
        ProgramEntryFromQuery(row, slavesType, programsType) == Ok(ProgramEntry(
          Int(row.index),
          if programsType == "int" then Int(row.targetId) else Str(row.targetName),
          if slavesType == "int" then Int(row.slaveId) else Str(row.slaveName)))
  {
  }
}
