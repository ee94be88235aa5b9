/**
 * The transform step: flatten every near-earth object of the staged page
 * files into one record, coerce the six orbital columns to numbers and drop
 * the records whose id is already stored.
 *
 * Reading the data directory and reading the stored ids are inputs here: the
 * directory listing comes with each file's parsed JSON content (or none when
 * the file is not valid JSON), and the store read is an `Option` because it
 * can fail (`None` when the stored ids could not be read). Python's
 * `float(str)` is the parameter `parse`.
 */
module Transform {
  import opened Wrappers
  import opened Json

  datatype Error =
    | NotAnObject(key: string)      // `.get` reached a value at `key` that is not an object
    | EntryNotAnObject              // an entry of "near_earth_objects" is not an object
    | InvalidJson(file: string)     // the staged file does not parse
    | NoObjectList(file: string)    // the file has nothing iterable under "near_earth_objects"
    | MissingColumns                // files were staged but held no objects, so the orbital columns do not exist
    | NotCoercible                  // a value of an orbital column cannot be read as a number
    | StoreUnavailable              // the stored ids could not be read

  /**
   * One extracted row: the sixteen keys `extract_fields` builds, in its
   * order ('id', 'name', 'abs_mag', 'min_d', 'max_d', 'hazard',
   * 'eccentricity', 'semi_maj_ax', 'inclination', 'ascending_node_lon',
   * 'perihelion_dist', 'aphelion_dist', 'perihelion_argument',
   * 'mean_anomaly', 'mean_motion', 'epoch_osculation'); a missing value is `JNull`.
   */
  datatype Record = Record(
    id: Value, name: Value, absMag: Value, minD: Value, maxD: Value, hazard: Value,
    eccentricity: Value, semiMajAx: Value, inclination: Value, ascendingNodeLon: Value,
    perihelionDist: Value, aphelionDist: Value,
    perihelionArgument: Value, meanAnomaly: Value, meanMotion: Value, epochOsculation: Value)

  // ---------------------------------------------------------------- lookup

  /** `obj.get(key, default)`. */
  function Get(obj: map<string, Value>, key: string, default: Value): Value
  {
    if key in obj then obj[key] else default
  }

  /**
   * `obj.get(k1, {}).get(k2, {}) ... .get(kn)`: an absent key on the way
   * gives an empty object, an absent last key gives None, and a present
   * value on the way that is not an object cannot be asked for a key.
   */
  function Lookup(obj: map<string, Value>, path: seq<string>): (r: Result<Value, Error>)
    requires |path| >= 1
    ensures |path| == 1 ==> r.Ok?
    ensures r.Err? ==> r.error.NotAnObject? && r.error.key in path[..|path| - 1]
    decreases |path|
  {
    if |path| == 1 then Ok(Get(obj, path[0], JNull))
    else match Get(obj, path[0], JObj(map[]))
      case JObj(m) => Lookup(m, path[1..])
      case _ => Err(NotAnObject(path[0]))
  }

  /** Looking anything up in an empty object gives None. */
  lemma {:induction false} LookupInEmpty(path: seq<string>)
    requires |path| >= 1
    ensures Lookup(map[], path) == Ok(JNull)
    decreases |path|
  {
    if |path| > 1 {
      LookupInEmpty(path[1..]);
    }
  }

  /** An absent first key never fails: the value is None, whatever follows on the path. */
  lemma LookupAbsentKey(obj: map<string, Value>, path: seq<string>)
    requires |path| >= 1 && path[0] !in obj
    ensures Lookup(obj, path) == Ok(JNull)
  {
    if |path| > 1 {
      LookupInEmpty(path[1..]);
    }
  }

  /** A present key followed by an object descends into that object. */
  lemma LookupDescends(obj: map<string, Value>, path: seq<string>)
    requires |path| >= 2 && path[0] in obj && obj[path[0]].JObj?
    ensures Lookup(obj, path) == Lookup(obj[path[0]].fields, path[1..])
  {
  }

  // -------------------------------------------------------- extract_fields

  /** `obj.get(key, {})` as an object to ask further keys of. */
  function Sub(obj: map<string, Value>, key: string): (r: Result<map<string, Value>, Error>)
    ensures r.Ok? <==> (key in obj ==> obj[key].JObj?)
    ensures key !in obj ==> r == Ok(map[])
  {
    match Get(obj, key, JObj(map[]))
    case JObj(m) => Ok(m)
    case _ => Err(NotAnObject(key))
  }

  /**
   * The objects `extract_fields` can flatten: the intermediate values it
   * asks for keys ("estimated_diameter", its "meters", "orbital_data") are
   * objects whenever they are present.
   */
  ghost predicate WellShaped(obj: map<string, Value>)
  {
    && ("estimated_diameter" in obj ==>
         && obj["estimated_diameter"].JObj?
         && ("meters" in obj["estimated_diameter"].fields ==> obj["estimated_diameter"].fields["meters"].JObj?))
    && ("orbital_data" in obj ==> obj["orbital_data"].JObj?)
  }

  /**
   * `extract_fields`: every column is the value at its key path, or None
   * when a key on the path is absent. The diameter lookups come before the
   * orbital ones, so a malformed diameter is the error reported first.
   */
  function ExtractFields(obj: map<string, Value>): (r: Result<Record, Error>)
    ensures r.Ok? <==> WellShaped(obj)
  {
    match Sub(obj, "estimated_diameter")
    case Err(e) => Err(e)
    case Ok(diameter) =>
      match Sub(diameter, "meters")
      case Err(e) => Err(e)
      case Ok(meters) =>
        match Sub(obj, "orbital_data")
        case Err(e) => Err(e)
        case Ok(orbit) =>
          Ok(Record(
            Get(obj, "id", JNull),
            Get(obj, "name", JNull),
            Get(obj, "absolute_magnitude_h", JNull),
            Get(meters, "estimated_diameter_min", JNull),
            Get(meters, "estimated_diameter_max", JNull),
            Get(obj, "is_potentially_hazardous_asteroid", JNull),
            Get(orbit, "eccentricity", JNull),
            Get(orbit, "semi_major_axis", JNull),
            Get(orbit, "inclination", JNull),
            Get(orbit, "ascending_node_longitude", JNull),
            Get(orbit, "perihelion_distance", JNull),
            Get(orbit, "aphelion_distance", JNull),
            Get(orbit, "perihelion_argument", JNull),
            Get(orbit, "mean_anomaly", JNull),
            Get(orbit, "mean_motion", JNull),
            Get(orbit, "epoch_osculation", JNull)))
  }

  /** Each column of an extracted record is the generic key-path lookup of its path. */
  lemma ExtractFieldsPaths(obj: map<string, Value>)
    requires ExtractFields(obj).Ok?
    ensures var r := ExtractFields(obj).value;
      && Lookup(obj, ["id"]) == Ok(r.id)
      && Lookup(obj, ["name"]) == Ok(r.name)
      && Lookup(obj, ["absolute_magnitude_h"]) == Ok(r.absMag)
      && Lookup(obj, ["estimated_diameter", "meters", "estimated_diameter_min"]) == Ok(r.minD)
      && Lookup(obj, ["estimated_diameter", "meters", "estimated_diameter_max"]) == Ok(r.maxD)
      && Lookup(obj, ["is_potentially_hazardous_asteroid"]) == Ok(r.hazard)
      && Lookup(obj, ["orbital_data", "eccentricity"]) == Ok(r.eccentricity)
      && Lookup(obj, ["orbital_data", "semi_major_axis"]) == Ok(r.semiMajAx)
      && Lookup(obj, ["orbital_data", "inclination"]) == Ok(r.inclination)
      && Lookup(obj, ["orbital_data", "ascending_node_longitude"]) == Ok(r.ascendingNodeLon)
      && Lookup(obj, ["orbital_data", "perihelion_distance"]) == Ok(r.perihelionDist)
      && Lookup(obj, ["orbital_data", "aphelion_distance"]) == Ok(r.aphelionDist)
      && Lookup(obj, ["orbital_data", "perihelion_argument"]) == Ok(r.perihelionArgument)
      && Lookup(obj, ["orbital_data", "mean_anomaly"]) == Ok(r.meanAnomaly)
      && Lookup(obj, ["orbital_data", "mean_motion"]) == Ok(r.meanMotion)
      && Lookup(obj, ["orbital_data", "epoch_osculation"]) == Ok(r.epochOsculation)
  {
    var diameter := Sub(obj, "estimated_diameter").value;
    forall k: string ensures Lookup(obj, [k]) == Ok(Get(obj, k, JNull)) {
      LookupOne(obj, k);
    }
    forall k: string ensures Lookup(obj, ["orbital_data", k]) == Ok(Get(Sub(obj, "orbital_data").value, k, JNull)) {
      LookupTwo(obj, "orbital_data", k);
    }
    forall k: string
      ensures Lookup(obj, ["estimated_diameter", "meters", k]) == Ok(Get(Sub(diameter, "meters").value, k, JNull))
    {
      LookupThree(obj, "estimated_diameter", "meters", k);
    }
  }

  lemma LookupOne(obj: map<string, Value>, k: string)
    ensures Lookup(obj, [k]) == Ok(Get(obj, k, JNull))
  {
  }

  lemma LookupTwo(obj: map<string, Value>, k1: string, k2: string)
    requires Sub(obj, k1).Ok?
    ensures Lookup(obj, [k1, k2]) == Ok(Get(Sub(obj, k1).value, k2, JNull))
  {
    assert [k1, k2][1..] == [k2];
  }

  lemma LookupThree(obj: map<string, Value>, k1: string, k2: string, k3: string)
    requires Sub(obj, k1).Ok? && Sub(Sub(obj, k1).value, k2).Ok?
    ensures Lookup(obj, [k1, k2, k3]) == Ok(Get(Sub(Sub(obj, k1).value, k2).value, k3, JNull))
  {
    assert [k1, k2, k3][1..] == [k2, k3];
    LookupTwo(Sub(obj, k1).value, k2, k3);
  }

  /**
   * Absent keys never make extraction fail: an object without
   * "estimated_diameter" and "orbital_data" is flattened, with both
   * diameters and all ten orbital columns None.
   */
  lemma AbsentSectionsGiveNone(obj: map<string, Value>)
    requires "estimated_diameter" !in obj && "orbital_data" !in obj
    ensures ExtractFields(obj).Ok?
    ensures var r := ExtractFields(obj).value;
      && r.minD == JNull && r.maxD == JNull
      && r.eccentricity == JNull && r.semiMajAx == JNull && r.inclination == JNull
      && r.ascendingNodeLon == JNull && r.perihelionDist == JNull && r.aphelionDist == JNull
      && r.perihelionArgument == JNull && r.meanAnomaly == JNull && r.meanMotion == JNull
      && r.epochOsculation == JNull
  {
  }

  // ------------------------------------------------------------- create_df

  /** A file in the data directory: its name and its parsed content, if it parses. */
  datatype DirEntry = DirEntry(name: string, content: Option<Value>)

  predicate EndsWith(s: string, suffix: string)
  {
    |suffix| <= |s| && s[|s| - |suffix|..] == suffix
  }

  /** The files `create_df` reads: JSON files other than the progress file. */
  predicate IsStagingFile(name: string)
  {
    EndsWith(name, ".json") && name != "progress.json"
  }

  /** The staged files, in directory order, each as often as it is listed. */
  function StagingFiles(dir: seq<DirEntry>): (r: seq<DirEntry>)
    ensures forall e :: e in r <==> e in dir && IsStagingFile(e.name)
    ensures multiset(r) <= multiset(dir)
    ensures |r| <= |dir|
  {
    if dir == [] then []
    else
      assert dir == [dir[0]] + dir[1..];
      (if IsStagingFile(dir[0].name) then [dir[0]] else []) + StagingFiles(dir[1..])
  }

  /** Listing two parts of a directory one after the other keeps each part's staged files in order. */
  lemma {:induction false} StagingFilesAppend(a: seq<DirEntry>, b: seq<DirEntry>)
    ensures StagingFiles(a + b) == StagingFiles(a) + StagingFiles(b)
  {
    if a == [] {
      assert a + b == b;
    } else {
      assert (a + b)[1..] == a[1..] + b;
      StagingFilesAppend(a[1..], b);
    }
  }

  /** `[flatten(obj) for obj in entries]`; the first entry that is not an object or does not flatten is the error. */
  function Collect(entries: seq<Value>, flatten: map<string, Value> -> Result<Record, Error>): (r: Result<seq<Record>, Error>)
    ensures r.Ok? ==> |r.value| == |entries|
  {
    if entries == [] then Ok([])
    else if !entries[0].JObj? then Err(EntryNotAnObject)
    else
      var head := flatten(entries[0].fields);
      if head.Err? then Err(head.error)
      else
        var rest := Collect(entries[1..], flatten);
        if rest.Err? then Err(rest.error)
        else Ok([head.value] + rest.value)
  }

  /** An entry flattens when it is an object `flatten` accepts. */
  predicate Flattens(v: Value, flatten: map<string, Value> -> Result<Record, Error>)
  {
    v.JObj? && flatten(v.fields).Ok?
  }

  /** The comprehension succeeds exactly when every entry flattens. */
  lemma {:induction false} CollectOk(entries: seq<Value>, flatten: map<string, Value> -> Result<Record, Error>)
    ensures Collect(entries, flatten).Ok? <==> forall j :: 0 <= j < |entries| ==> Flattens(entries[j], flatten)
    decreases |entries|
  {
    if entries != [] {
      var rest := entries[1..];
      CollectOk(rest, flatten);
      assert forall j :: 1 <= j < |entries| ==> entries[j] == rest[j - 1];
      if Flattens(entries[0], flatten) && Collect(rest, flatten).Err? {
        var j :| 0 <= j < |rest| && !Flattens(rest[j], flatten);
        assert !Flattens(entries[j + 1], flatten);
      }
    }
  }

  /** A successful comprehension holds each entry's record at the entry's position. */
  lemma {:induction false} CollectAt(entries: seq<Value>, flatten: map<string, Value> -> Result<Record, Error>, j: nat)
    requires Collect(entries, flatten).Ok? && j < |entries|
    ensures entries[j].JObj? && flatten(entries[j].fields) == Ok(Collect(entries, flatten).value[j])
    decreases j
  {
    if j > 0 {
      CollectAt(entries[1..], flatten, j - 1);
      assert entries[1..][j - 1] == entries[j];
      assert Collect(entries, flatten).value[1..] == Collect(entries[1..], flatten).value;
    }
  }

  /** `[extract_fields(obj) for obj in entries]`. */
  function ExtractAll(entries: seq<Value>): Result<seq<Record>, Error>
  {
    Collect(entries, ExtractFields)
  }

  /**
   * A page flattens exactly when every entry is an object `extract_fields`
   * accepts, and then into one record per entry, each entry's record at the
   * entry's position.
   */
  lemma ExtractAllSpec(entries: seq<Value>)
    ensures ExtractAll(entries).Ok? <==> forall j :: 0 <= j < |entries| ==> entries[j].JObj? && WellShaped(entries[j].fields)
    ensures ExtractAll(entries).Ok? ==> |ExtractAll(entries).value| == |entries|
    ensures ExtractAll(entries).Ok? ==>
      forall j :: 0 <= j < |entries| ==> entries[j].JObj? && ExtractFields(entries[j].fields) == Ok(ExtractAll(entries).value[j])
  {
    CollectOk(entries, ExtractFields);
    assert forall j :: 0 <= j < |entries| ==> (Flattens(entries[j], ExtractFields) <==> entries[j].JObj? && WellShaped(entries[j].fields));
    if ExtractAll(entries).Ok? {
      forall j | 0 <= j < |entries|
        ensures entries[j].JObj? && ExtractFields(entries[j].fields) == Ok(ExtractAll(entries).value[j])
      {
        CollectAt(entries, ExtractFields, j);
      }
    }
  }

  /**
   * What the comprehension over `data['near_earth_objects']` iterates: the
   * items of a list. An empty object or an empty string iterates nothing;
   * a non-empty one yields keys or characters, strings on which `.get`
   * fails, so the page fails as an entry that is not an object would. A
   * missing key, a document that is not an object and a value that is not
   * iterable (a number, a boolean, null) fail the page.
   */
  function PageEntries(file: DirEntry): (r: Result<seq<Value>, Error>)
    ensures file.content.None? ==> r == Err(InvalidJson(file.name))
    ensures r.Ok? && r.value != [] ==>
      file.content.Some? && file.content.value.JObj? && "near_earth_objects" in file.content.value.fields
      && file.content.value.fields["near_earth_objects"] == JArr(r.value)
    ensures (file.content.Some? && file.content.value.JObj? && "near_earth_objects" in file.content.value.fields
             && file.content.value.fields["near_earth_objects"].JArr?) ==>
      r == Ok(file.content.value.fields["near_earth_objects"].items)
  {
    match file.content
    case None => Err(InvalidJson(file.name))
    case Some(JObj(data)) =>
      if "near_earth_objects" !in data then Err(NoObjectList(file.name))
      else
        (match data["near_earth_objects"]
         case JArr(items) => Ok(items)
         case JObj(m) => if m == map[] then Ok([]) else Err(EntryNotAnObject)
         case JStr(t) => if t == "" then Ok([]) else Err(EntryNotAnObject)
         case _ => Err(NoObjectList(file.name)))
    case Some(_) => Err(NoObjectList(file.name))
  }

  /** The records of one staged page, one per entry, in entry order. */
  function FileRecords(file: DirEntry): (r: Result<seq<Record>, Error>)
    ensures r.Ok? ==> PageEntries(file).Ok? && |r.value| == |PageEntries(file).value|
  {
    match PageEntries(file)
    case Err(e) => Err(e)
    case Ok(entries) => ExtractAll(entries)
  }

  /** The records of the given files concatenated in file order; the first file that fails is the error. */
  function Concat(files: seq<DirEntry>): (r: Result<seq<Record>, Error>)
    ensures r.Err? ==> exists i :: 0 <= i < |files| && FileRecords(files[i]) == Err(r.error)
  {
    if files == [] then Ok([])
    else
      match Concat(files[..|files| - 1])
      case Err(e) => Err(e)
      case Ok(before) => (
        match FileRecords(files[|files| - 1])
        case Err(e) => Err(e)
        case Ok(recs) => Ok(before + recs))
  }

  /** The number of entries of the given pages. */
  function EntryCount(files: seq<DirEntry>): nat
  {
    if files == [] then 0
    else EntryCount(files[..|files| - 1])
         + (match PageEntries(files[|files| - 1]) case Ok(es) => |es| case Err(_) => 0)
  }

  /** One record per entry: the concatenation holds as many records as the pages hold entries. */
  lemma {:induction false} ConcatCount(files: seq<DirEntry>)
    requires Concat(files).Ok?
    ensures |Concat(files).value| == EntryCount(files)
    decreases |files|
  {
    if files != [] {
      ConcatCount(files[..|files| - 1]);
    }
  }

  /** The records of a page appear, in entry order, right after those of the pages before it. */
  lemma ConcatPlacesFile(files: seq<DirEntry>, i: nat)
    requires i < |files| && Concat(files[..i + 1]).Ok?
    ensures Concat(files[..i]).Ok? && FileRecords(files[i]).Ok?
    ensures Concat(files[..i + 1]).value == Concat(files[..i]).value + FileRecords(files[i]).value
  {
    assert files[..i + 1][..i] == files[..i];
  }

  /** Once a prefix of the files fails, the whole concatenation fails with the same error. */
  lemma {:induction false} ConcatErrorPersists(files: seq<DirEntry>, i: nat)
    requires i <= |files| && Concat(files[..i]).Err?
    ensures Concat(files) == Concat(files[..i])
    decreases |files| - i
  {
    if i < |files| {
      assert files[..i + 1][..i] == files[..i];
      ConcatErrorPersists(files, i + 1);
    } else {
      assert files[..i] == files;
    }
  }

  /** One step of reading the files in order: a failing file fails the whole concatenation, any other extends it. */
  lemma ConcatStep(files: seq<DirEntry>, i: nat, out: seq<Record>)
    requires i < |files| && Concat(files[..i]) == Ok(out)
    ensures FileRecords(files[i]).Err? ==> Concat(files) == Err(FileRecords(files[i]).error)
    ensures FileRecords(files[i]).Ok? ==> Concat(files[..i + 1]) == Ok(out + FileRecords(files[i]).value)
  {
    assert files[..i + 1][..i] == files[..i];
    if FileRecords(files[i]).Err? {
      ConcatErrorPersists(files, i + 1);
    }
  }

  // ----------------------------------------------------- float coercion

  /**
   * `astype(float)` on one value. `parse` stands for Python's `float` on a
   * string; None stays missing (NaN) rather than becoming a number.
   */
  function CoerceValue(v: Value, parse: string -> Option<real>): (r: Option<Value>)
    ensures r.Some? ==> r.value.JNull? || r.value.JNum?
    ensures r == Some(JNull) <==> v == JNull
    ensures v.JNum? ==> r == Some(v)
  {
    match v
    case JNull => Some(JNull)
    case JNum(x) => Some(JNum(x))
    case JBool(b) => Some(JNum(if b then 1.0 else 0.0))
    case JStr(s) => (match parse(s) case Some(x) => Some(JNum(x)) case None => None)
    case _ => None
  }

  /** The six orbital columns of one record coerced; the other ten are left as they are. */
  function CoerceRecord(r: Record, parse: string -> Option<real>): (c: Option<Record>)
    ensures c.Some? ==> OrbitNumeric(c.value)
    ensures OrbitNumeric(r) ==> c == Some(r)
  {
    var e := CoerceValue(r.eccentricity, parse);
    var a := CoerceValue(r.semiMajAx, parse);
    var i := CoerceValue(r.inclination, parse);
    var n := CoerceValue(r.ascendingNodeLon, parse);
    var q := CoerceValue(r.perihelionDist, parse);
    var qq := CoerceValue(r.aphelionDist, parse);
    if e.Some? && a.Some? && i.Some? && n.Some? && q.Some? && qq.Some?
    then Some(r.(eccentricity := e.value, semiMajAx := a.value, inclination := i.value,
                 ascendingNodeLon := n.value, perihelionDist := q.value, aphelionDist := qq.value))
    else None
  }

  /** The orbital columns of every record coerced; one value that cannot be read fails the whole step. */
  function CoerceColumns(rows: seq<Record>, parse: string -> Option<real>): (r: Result<seq<Record>, Error>)
    ensures r.Err? ==> r.error == NotCoercible
    ensures r.Ok? ==> |r.value| == |rows| && forall x :: x in r.value ==> OrbitNumeric(x)
  {
    if rows == [] then Ok([])
    else
      match CoerceRecord(rows[0], parse)
      case None => Err(NotCoercible)
      case Some(r) => (
        match CoerceColumns(rows[1..], parse)
        case Err(e) => Err(e)
        case Ok(rest) => Ok([r] + rest))
  }

  /** After `astype(float)`: every orbital column is missing or a number. */
  ghost predicate OrbitNumeric(r: Record)
  {
    && (r.eccentricity.JNull? || r.eccentricity.JNum?)
    && (r.semiMajAx.JNull? || r.semiMajAx.JNum?)
    && (r.inclination.JNull? || r.inclination.JNum?)
    && (r.ascendingNodeLon.JNull? || r.ascendingNodeLon.JNum?)
    && (r.perihelionDist.JNull? || r.perihelionDist.JNum?)
    && (r.aphelionDist.JNull? || r.aphelionDist.JNum?)
  }

  /** Missing stays missing: a record's orbital value is None after coercion exactly when it was None before. */
  ghost predicate MissingPreserved(before: Record, after: Record)
  {
    && (after.eccentricity == JNull <==> before.eccentricity == JNull)
    && (after.semiMajAx == JNull <==> before.semiMajAx == JNull)
    && (after.inclination == JNull <==> before.inclination == JNull)
    && (after.ascendingNodeLon == JNull <==> before.ascendingNodeLon == JNull)
    && (after.perihelionDist == JNull <==> before.perihelionDist == JNull)
    && (after.aphelionDist == JNull <==> before.aphelionDist == JNull)
  }

  /** The ten columns that are not coerced are unchanged. */
  ghost predicate OthersUnchanged(before: Record, after: Record)
  {
    && after.id == before.id && after.name == before.name && after.absMag == before.absMag
    && after.minD == before.minD && after.maxD == before.maxD && after.hazard == before.hazard
    && after.perihelionArgument == before.perihelionArgument && after.meanAnomaly == before.meanAnomaly
    && after.meanMotion == before.meanMotion && after.epochOsculation == before.epochOsculation
  }

  /** Coercion keeps the number and order of records, keeps missing values missing and touches only the orbital columns. */
  lemma {:induction false} CoerceColumnsPreserves(rows: seq<Record>, parse: string -> Option<real>)
    requires CoerceColumns(rows, parse).Ok?
    ensures var out := CoerceColumns(rows, parse).value;
      && |out| == |rows|
      && forall j :: 0 <= j < |rows| ==> MissingPreserved(rows[j], out[j]) && OthersUnchanged(rows[j], out[j])
    decreases |rows|
  {
    if rows != [] {
      CoerceRecordPreserves(rows[0], parse);
      CoerceColumnsPreserves(rows[1..], parse);
      var out := CoerceColumns(rows, parse).value;
      assert out[1..] == CoerceColumns(rows[1..], parse).value;
      forall j | 1 <= j < |rows|
        ensures MissingPreserved(rows[j], out[j]) && OthersUnchanged(rows[j], out[j])
      {
        assert rows[j] == rows[1..][j - 1] && out[j] == out[1..][j - 1];
      }
    }
  }

  /** Coercing one record keeps its missing orbital values missing and touches nothing else. */
  lemma CoerceRecordPreserves(r: Record, parse: string -> Option<real>)
    requires CoerceRecord(r, parse).Some?
    ensures MissingPreserved(r, CoerceRecord(r, parse).value)
    ensures OthersUnchanged(r, CoerceRecord(r, parse).value)
  {
  }

  /** A record with no orbital data keeps all six orbital columns missing after coercion, and is kept. */
  lemma MissingOrbitStaysMissing(r: Record, parse: string -> Option<real>)
    requires r.eccentricity == JNull && r.semiMajAx == JNull && r.inclination == JNull
    requires r.ascendingNodeLon == JNull && r.perihelionDist == JNull && r.aphelionDist == JNull
    ensures CoerceRecord(r, parse) == Some(r)
  {
  }

  /** What `create_df` returns. */
  function StagedRecords(dir: seq<DirEntry>, parse: string -> Option<real>): (r: Result<seq<Record>, Error>)
    ensures r.Ok? ==> forall x :: x in r.value ==> OrbitNumeric(x)
  {
    var files := StagingFiles(dir);
    if files == [] then Ok([])
    else
      match Concat(files)
      case Err(e) => Err(e)
      case Ok(rows) => if rows == [] then Err(MissingColumns) else CoerceColumns(rows, parse)
  }

  /**
   * `create_df`: read each staged file in directory order, append its
   * records to the frame, then coerce the orbital columns.
   */
  method CreateDf(dir: seq<DirEntry>, parse: string -> Option<real>) returns (df: Result<seq<Record>, Error>)
    ensures df == StagedRecords(dir, parse)
  {
    var files := StagingFiles(dir);
    if files == [] {
      return Ok([]);
    }
    var out: seq<Record> := [];
    var i := 0;
    while i < |files|
      invariant 0 <= i <= |files|
      invariant Concat(files[..i]) == Ok(out)
    {
      var recs := FileRecords(files[i]);
      ConcatStep(files, i, out);
      if recs.Err? {
        return Err(recs.error);
      }
      out := out + recs.value;
      i := i + 1;
    }
    assert files[..i] == files;
    if out == [] {
      return Err(MissingColumns);
    }
    df := CoerceColumns(out, parse);
  }

  /** The frame holds one record per entry of the staged pages, whatever the order of the listing. */
  lemma StagedCount(dir: seq<DirEntry>, parse: string -> Option<real>)
    requires StagedRecords(dir, parse).Ok?
    ensures |StagedRecords(dir, parse).value| == EntryCount(StagingFiles(dir))
  {
    var files := StagingFiles(dir);
    if files != [] {
      ConcatCount(files);
      CoerceColumnsPreserves(Concat(files).value, parse);
    }
  }

  /** The frame is empty exactly when no file is staged; staged pages without objects are an error. */
  lemma EmptyFrameIffNoStagedFiles(dir: seq<DirEntry>, parse: string -> Option<real>)
    ensures StagedRecords(dir, parse) == Ok([]) <==> StagingFiles(dir) == []
  {
    var files := StagingFiles(dir);
    if files != [] && Concat(files).Ok? && Concat(files).value != [] && CoerceColumns(Concat(files).value, parse).Ok? {
      CoerceColumnsPreserves(Concat(files).value, parse);
    }
  }

  // ----------------------------------------------------------------- dedup

  /** The id a record is matched on against the store: a string id, if it has one. */
  function RecordId(r: Record): Option<string>
  {
    if r.id.JStr? then Some(r.id.s) else None
  }

  /** `df['id'].isin(existing_ids)` for one record. */
  predicate IsStored(r: Record, existing: set<string>)
  {
    RecordId(r).Some? && RecordId(r).value in existing
  }

  /** `df[~df['id'].isin(existing_ids)]`: the records whose id is not stored, in their order. */
  function Dedup(rows: seq<Record>, existing: set<string>): (out: seq<Record>)
    ensures |out| <= |rows|
    ensures forall r :: r in out <==> r in rows && !IsStored(r, existing)
  {
    if rows == [] then []
    else (if IsStored(rows[0], existing) then [] else [rows[0]]) + Dedup(rows[1..], existing)
  }

  /** The records the filter drops. */
  function Removed(rows: seq<Record>, existing: set<string>): seq<Record>
  {
    if rows == [] then []
    else (if IsStored(rows[0], existing) then [rows[0]] else []) + Removed(rows[1..], existing)
  }

  /** The string ids of the given records. */
  function IdsOf(rows: seq<Record>): set<string>
  {
    set r | r in rows && RecordId(r).Some? :: RecordId(r).value
  }

  /** No record that survives the filter carries a stored id. */
  lemma DedupDisjoint(rows: seq<Record>, existing: set<string>)
    ensures IdsOf(Dedup(rows, existing)) !! existing
  {
  }

  /** The filter preserves order: filtering a concatenation is concatenating the filtered parts. */
  lemma {:induction false} DedupAppend(xs: seq<Record>, ys: seq<Record>, existing: set<string>)
    ensures Dedup(xs + ys, existing) == Dedup(xs, existing) + Dedup(ys, existing)
    decreases |xs|
  {
    if xs != [] {
      assert (xs + ys)[0] == xs[0] && (xs + ys)[1..] == xs[1..] + ys;
      DedupAppend(xs[1..], ys, existing);
      var head := if IsStored(xs[0], existing) then [] else [xs[0]];
      assert head + (Dedup(xs[1..], existing) + Dedup(ys, existing))
          == (head + Dedup(xs[1..], existing)) + Dedup(ys, existing);
    } else {
      assert xs + ys == ys;
    }
  }

  /** Filtering again with the same ids removes nothing. */
  lemma {:induction false} DedupIdempotent(rows: seq<Record>, existing: set<string>)
    ensures Dedup(Dedup(rows, existing), existing) == Dedup(rows, existing)
    decreases |rows|
  {
    if rows != [] {
      DedupIdempotent(rows[1..], existing);
      var rest := Dedup(rows[1..], existing);
      if IsStored(rows[0], existing) {
        assert Dedup(rows, existing) == rest;
      } else {
        assert Dedup(rows, existing) == [rows[0]] + rest;
        assert ([rows[0]] + rest)[0] == rows[0] && ([rows[0]] + rest)[1..] == rest;
      }
    }
  }

  /**
   * The kept and the dropped records together are the input, so the count
   * logged as filtered (`before - after`) is the number of records dropped.
   */
  lemma {:induction false} DedupPartition(rows: seq<Record>, existing: set<string>)
    ensures multiset(Dedup(rows, existing)) + multiset(Removed(rows, existing)) == multiset(rows)
    ensures |rows| - |Dedup(rows, existing)| == |Removed(rows, existing)|
    decreases |rows|
  {
    if rows != [] {
      DedupPartition(rows[1..], existing);
      assert rows == [rows[0]] + rows[1..];
    }
  }

  /** The filter looks only at stored ids: records that are all new survive, even two with the same id. */
  lemma {:induction false} DedupKeepsNew(rows: seq<Record>, existing: set<string>)
    requires forall r :: r in rows ==> !IsStored(r, existing)
    ensures Dedup(rows, existing) == rows
    decreases |rows|
  {
    if rows != [] {
      DedupKeepsNew(rows[1..], existing);
    }
  }

  /**
   * Running the step again after the kept records were appended to the
   * store keeps nothing that has an id: only records without a string id
   * can pass twice.
   */
  lemma RerunKeepsNothingWithId(rows: seq<Record>, existing: set<string>)
    ensures var stored := existing + IdsOf(Dedup(rows, existing));
      forall r :: r in Dedup(rows, stored) ==> RecordId(r).None?
  {
  }

  /** A record that carries only an id. */
  function IdOnly(id: string): Record
  {
    Record(JStr(id), JNull, JNull, JNull, JNull, JNull, JNull, JNull,
           JNull, JNull, JNull, JNull, JNull, JNull, JNull, JNull)
  }

  /** Stored ids {"A", "B"} and new records [A, C, D]: the loader receives [C, D]. */
  lemma DedupExample()
    ensures Dedup([IdOnly("A"), IdOnly("C"), IdOnly("D")], {"A", "B"}) == [IdOnly("C"), IdOnly("D")]
  {
    var rows := [IdOnly("A"), IdOnly("C"), IdOnly("D")];
    assert rows[1..] == [IdOnly("C"), IdOnly("D")];
    assert rows[1..][1..] == [IdOnly("D")];
    assert "C" != "A" && "C" != "B" && "D" != "A" && "D" != "B";
  }

  // ------------------------------------------------------------- transform

  /**
   * What `transform` returns: the frame of `create_df`, returned as it is
   * when empty (the store is not read), otherwise filtered against the
   * stored ids, whose read can fail.
   */
  function TransformResult(df: Result<seq<Record>, Error>, store: Option<set<string>>): (r: Result<seq<Record>, Error>)
    ensures df.Err? ==> r == df
    ensures df == Ok([]) ==> r == Ok([])
    ensures df.Ok? && df.value != [] && store.None? ==> r == Err(StoreUnavailable)
    ensures df.Ok? && df.value != [] && store.Some? ==> r == Ok(Dedup(df.value, store.value))
    ensures r.Ok? ==> df.Ok? && forall x :: x in r.value ==> x in df.value
  {
    match df
    case Err(e) => Err(e)
    case Ok(rows) =>
      if rows == [] then Ok([])
      else match store
        case None => Err(StoreUnavailable)
        case Some(existing) => Ok(Dedup(rows, existing))
  }

  /** `transform`: build the frame, then drop the records already stored. */
  method Transform(dir: seq<DirEntry>, parse: string -> Option<real>, store: Option<set<string>>)
    returns (r: Result<seq<Record>, Error>)
    ensures r == TransformResult(StagedRecords(dir, parse), store)
  {
    var df := CreateDf(dir, parse);
    if df.Err? {
      return Err(df.error);
    }
    if df.value == [] {
      return Ok([]);
    }
    if store.None? {
      return Err(StoreUnavailable);
    }
    r := Ok(Dedup(df.value, store.value));
  }

  /** With no staged file the step succeeds with no records, even when the store cannot be read. */
  lemma NoStagedFilesIgnoresStore(dir: seq<DirEntry>, parse: string -> Option<real>, store: Option<set<string>>)
    requires StagingFiles(dir) == []
    ensures TransformResult(StagedRecords(dir, parse), store) == Ok([])
  {
  }

  /** The records the step hands to the loader carry no stored id. */
  lemma TransformOutputIsNew(dir: seq<DirEntry>, parse: string -> Option<real>, existing: set<string>)
    requires TransformResult(StagedRecords(dir, parse), Some(existing)).Ok?
    ensures IdsOf(TransformResult(StagedRecords(dir, parse), Some(existing)).value) !! existing
  {
    var df := StagedRecords(dir, parse);
    if df.value != [] {
      DedupDisjoint(df.value, existing);
    }
  }
}
