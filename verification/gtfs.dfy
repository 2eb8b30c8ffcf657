/**
 * Reading the PTV static GTFS bundle (pyptvdata/gtfs.py).
 *
 * The bundle is a zip archive whose directory entries (`1/`, `2/`, …) name
 * transport modes; each mode directory holds a nested `google_transit.zip`
 * whose `.txt` members are GTFS tables. The result maps each mode id to a
 * dict from table name to the parsed table.
 *
 * Archives are values: a name list and the members that can be opened.
 * Parsing a table (the CSV reader with the column types registered for that
 * table name) is a parameter that may fail; so are the HTTP fetch and the
 * opening of an archive from bytes or from a local path.
 */
module GtfsArchive {
  import opened Wrappers
  import opened Dicts
  import opened Text
  import opened Encoding

  const DefaultGtfsUrl := "http://data.ptv.vic.gov.au/downloads/gtfs.zip"
  const TransitZipName := "/google_transit.zip"

  /** A nested `google_transit.zip`: its name list and the members that open. */
  datatype InnerArchive<F> = InnerArchive(names: seq<string>, files: map<string, F>)

  /** The outer bundle: its name list and the nested archives that open, by member path. */
  datatype OuterArchive<F> = OuterArchive(names: seq<string>, transit: map<string, InnerArchive<F>>)

  datatype ArchiveError<E> =
    | NotZip(path: string)                  // the `.zip` suffix assertion
    | MissingMember(member: string)         // the archive has no such member
    | BadArchive(source: string)            // the bytes or the file are not a zip archive
    | FetchFailed(url: string)              // `requests.get` raised: no connection, or no adapter for the scheme
    | TableError(table: string, error: E)   // the table could not be parsed (or has no column types)

  /** `f"{mode_id}/google_transit.zip"` */
  function TransitPath(modeId: string): string {
    modeId + TransitZipName
  }

  // ---- the nested archive: table name to parsed table ----

  /** One iteration of the inner loop: a `.txt` member is parsed and stored under its stem. */
  function AddTable<F, T, E>(inner: InnerArchive<F>, tables: Entries<string, T>, name: string,
                             readTable: (string, F) -> Result<T, E>): Result<Entries<string, T>, ArchiveError<E>>
  {
    if !EndsWith(name, ".txt") then Success(tables)
    else
      var table := RemoveSuffix(name, ".txt");
      if name !in inner.files then Failure(MissingMember(name))
      else
        match readTable(table, inner.files[name])
        case Failure(e) => Failure(TableError(table, e))
        case Success(t) => Success(Assign(tables, table, t))
  }

  /** The inner loop over the members `names`, in order, stopping at the first error. */
  function ReadTables<F, T, E>(inner: InnerArchive<F>, names: seq<string>,
                               readTable: (string, F) -> Result<T, E>): Result<Entries<string, T>, ArchiveError<E>>
    decreases |names|
  {
    if names == [] then Success([])
    else
      var tables :- ReadTables(inner, names[..|names| - 1], readTable);
      AddTable(inner, tables, names[|names| - 1], readTable)
  }

  /** Once a prefix of the members fails, the whole loop fails with that error. */
  lemma {:induction false} TablesFailurePersists<F, T, E>(inner: InnerArchive<F>, names: seq<string>, i: nat,
                                                          readTable: (string, F) -> Result<T, E>)
    requires i <= |names| && ReadTables(inner, names[..i], readTable).Failure?
    ensures ReadTables(inner, names, readTable) == ReadTables(inner, names[..i], readTable)
    decreases |names|
  {
    if i < |names| {
      var init := names[..|names| - 1];
      assert init[..i] == names[..i];
      TablesFailurePersists(inner, init, i, readTable);
    } else {
      assert names[..i] == names;
    }
  }

  /** The member that would be parsed for a table: a `.txt` member whose stem is that table. */
  predicate IsTableMember(name: string, table: string) {
    EndsWith(name, ".txt") && RemoveSuffix(name, ".txt") == table
  }

  /** A `.txt` member can be parsed: it opens and the reader accepts it. */
  predicate Readable<F, T, E>(inner: InnerArchive<F>, name: string, readTable: (string, F) -> Result<T, E>) {
    name in inner.files && readTable(RemoveSuffix(name, ".txt"), inner.files[name]).Success?
  }

  /** Reading the nested archive succeeds exactly when every `.txt` member opens and parses. */
  lemma {:induction false} TablesSucceed<F, T, E>(inner: InnerArchive<F>, names: seq<string>,
                                                  readTable: (string, F) -> Result<T, E>)
    ensures ReadTables(inner, names, readTable).Success? <==>
      forall i :: 0 <= i < |names| && EndsWith(names[i], ".txt") ==> Readable(inner, names[i], readTable)
    decreases |names|
  {
    if names != [] {
      var init := names[..|names| - 1];
      TablesSucceed(inner, init, readTable);
      assert forall i :: 0 <= i < |init| ==> init[i] == names[i];
    }
  }

  /**
   * The tables read are exactly the stems of the `.txt` members, each stored
   * once, and each holds what the reader made of some member with that stem.
   */
  lemma {:induction false} TableEntries<F, T, E>(inner: InnerArchive<F>, names: seq<string>,
                                                 readTable: (string, F) -> Result<T, E>, table: string)
    requires ReadTables(inner, names, readTable).Success?
    ensures var tables := ReadTables(inner, names, readTable).value;
      && DistinctKeys(tables)
      && (table in Keys(tables) <==> exists i :: 0 <= i < |names| && IsTableMember(names[i], table))
      && (Get(tables, table).Some? ==>
            exists i :: 0 <= i < |names| && IsTableMember(names[i], table) && names[i] in inner.files &&
              readTable(table, inner.files[names[i]]) == Success(Get(tables, table).value))
    decreases |names|
  {
    if names != [] {
      var init := names[..|names| - 1];
      var last := names[|names| - 1];
      var before := ReadTables(inner, init, readTable).value;
      TableEntries(inner, init, readTable, table);
      assert forall i :: 0 <= i < |init| ==> init[i] == names[i];
      if EndsWith(last, ".txt") {
        var t := readTable(RemoveSuffix(last, ".txt"), inner.files[last]).value;
        GetAssign(before, RemoveSuffix(last, ".txt"), t, table);
      }
    }
  }

  /** The inner loop of `read_gtfs_zip_obj`: every `.txt` member of a nested archive, parsed. */
  method ReadTransitZip<F, T, E>(inner: InnerArchive<F>, readTable: (string, F) -> Result<T, E>)
    returns (r: Result<Entries<string, T>, ArchiveError<E>>)
    ensures r == ReadTables(inner, inner.names, readTable)
  {
    var tables: Entries<string, T> := [];
    for i := 0 to |inner.names|
      invariant ReadTables(inner, inner.names[..i], readTable) == Success(tables)
    {
      var name := inner.names[i];
      assert inner.names[..i + 1][..i] == inner.names[..i];
      if !EndsWith(name, ".txt") {
        continue;
      }
      var table := RemoveSuffix(name, ".txt");
      if name !in inner.files {
        TablesFailurePersists(inner, inner.names, i + 1, readTable);
        return Failure(MissingMember(name));
      }
      var parsed := readTable(table, inner.files[name]);
      if parsed.Failure? {
        TablesFailurePersists(inner, inner.names, i + 1, readTable);
        return Failure(TableError(table, parsed.error));
      }
      tables := Assign(tables, table, parsed.value);
    }
    assert inner.names[..|inner.names|] == inner.names;
    return Success(tables);
  }

  // ---- the outer bundle: mode id to tables ----

  /**
   * One iteration of the outer loop: a directory entry names a mode, whose
   * nested archive is read and stored under the mode id.
   */
  function AddMode<F, T, E>(outer: OuterArchive<F>, dfk: Entries<string, Entries<string, T>>, item: string,
                            readTable: (string, F) -> Result<T, E>): Result<Entries<string, Entries<string, T>>, ArchiveError<E>>
  {
    if !EndsWith(item, "/") then Success(dfk)
    else
      var modeId := Strip(item, '/');
      var path := TransitPath(modeId);
      if path !in outer.transit then Failure(MissingMember(path))
      else
        var inner := outer.transit[path];
        var tables :- ReadTables(inner, inner.names, readTable);
        Success(Assign(dfk, modeId, tables))
  }

  /** The outer loop over the entries `names`, in order, stopping at the first error. */
  function ReadModes<F, T, E>(outer: OuterArchive<F>, names: seq<string>,
                              readTable: (string, F) -> Result<T, E>): Result<Entries<string, Entries<string, T>>, ArchiveError<E>>
    decreases |names|
  {
    if names == [] then Success([])
    else
      var dfk :- ReadModes(outer, names[..|names| - 1], readTable);
      AddMode(outer, dfk, names[|names| - 1], readTable)
  }

  lemma {:induction false} ModesFailurePersists<F, T, E>(outer: OuterArchive<F>, names: seq<string>, i: nat,
                                                         readTable: (string, F) -> Result<T, E>)
    requires i <= |names| && ReadModes(outer, names[..i], readTable).Failure?
    ensures ReadModes(outer, names, readTable) == ReadModes(outer, names[..i], readTable)
    decreases |names|
  {
    if i < |names| {
      var init := names[..|names| - 1];
      assert init[..i] == names[..i];
      ModesFailurePersists(outer, init, i, readTable);
    } else {
      assert names[..i] == names;
    }
  }

  lemma ModesStep<F, T, E>(outer: OuterArchive<F>, names: seq<string>, i: nat,
                           readTable: (string, F) -> Result<T, E>, dfk: Entries<string, Entries<string, T>>)
    requires i < |names| && ReadModes(outer, names[..i], readTable) == Success(dfk)
    ensures ReadModes(outer, names[..i + 1], readTable) == AddMode(outer, dfk, names[i], readTable)
  {
    assert names[..i + 1][..i] == names[..i];
  }

  /** The entry that would be read for a mode: a directory entry whose name, stripped of `/`, is the mode id. */
  predicate IsModeEntry(item: string, modeId: string) {
    EndsWith(item, "/") && Strip(item, '/') == modeId
  }

  /**
   * A directory entry `m/` names mode `m` (when `m` has no `/` at either end),
   * and that mode's tables are read from `m/google_transit.zip`.
   */
  lemma DirectoryEntryMode(modeId: string)
    requires modeId == [] || (modeId[0] != '/' && modeId[|modeId| - 1] != '/')
    ensures IsModeEntry(modeId + "/", modeId)
    ensures TransitPath(Strip(modeId + "/", '/')) == modeId + "/google_transit.zip"
  {
    StripOneTrailing(modeId, '/');
    assert EndsWith(modeId + "/", "/");
  }

  /** A directory entry can be read: its nested archive exists and all its tables parse. */
  predicate ModeReadable<F, T, E>(outer: OuterArchive<F>, item: string, readTable: (string, F) -> Result<T, E>) {
    var path := TransitPath(Strip(item, '/'));
    path in outer.transit && ReadTables(outer.transit[path], outer.transit[path].names, readTable).Success?
  }

  /** Reading the bundle succeeds exactly when every directory entry's nested archive exists and reads. */
  lemma {:induction false} ModesSucceed<F, T, E>(outer: OuterArchive<F>, names: seq<string>,
                                                 readTable: (string, F) -> Result<T, E>)
    ensures ReadModes(outer, names, readTable).Success? <==>
      forall i :: 0 <= i < |names| && EndsWith(names[i], "/") ==> ModeReadable(outer, names[i], readTable)
    decreases |names|
  {
    if names != [] {
      var init := names[..|names| - 1];
      ModesSucceed(outer, init, readTable);
      assert forall i :: 0 <= i < |init| ==> init[i] == names[i];
    }
  }

  /**
   * The modes read are exactly the directory entries stripped of `/`, each
   * stored once, and each holds the tables of the nested archive of an entry
   * with that mode id.
   */
  lemma {:induction false} ModeEntries<F, T, E>(outer: OuterArchive<F>, names: seq<string>,
                                                readTable: (string, F) -> Result<T, E>, modeId: string)
    requires ReadModes(outer, names, readTable).Success?
    ensures var dfk := ReadModes(outer, names, readTable).value;
      && DistinctKeys(dfk)
      && (modeId in Keys(dfk) <==> exists i :: 0 <= i < |names| && IsModeEntry(names[i], modeId))
      && (Get(dfk, modeId).Some? ==>
            TransitPath(modeId) in outer.transit &&
            ReadTables(outer.transit[TransitPath(modeId)], outer.transit[TransitPath(modeId)].names, readTable)
              == Success(Get(dfk, modeId).value))
    decreases |names|
  {
    if names != [] {
      var init := names[..|names| - 1];
      var last := names[|names| - 1];
      var before := ReadModes(outer, init, readTable).value;
      ModeEntries(outer, init, readTable, modeId);
      assert forall i :: 0 <= i < |init| ==> init[i] == names[i];
      if EndsWith(last, "/") {
        var path := TransitPath(Strip(last, '/'));
        var tables := ReadTables(outer.transit[path], outer.transit[path].names, readTable).value;
        GetAssign(before, Strip(last, '/'), tables, modeId);
      }
    }
  }

  /** `read_gtfs_zip_obj`: every mode directory of the bundle, with its tables. */
  method ReadGtfsZipObj<F, T, E>(outer: OuterArchive<F>, readTable: (string, F) -> Result<T, E>)
    returns (r: Result<Entries<string, Entries<string, T>>, ArchiveError<E>>)
    ensures r == ReadModes(outer, outer.names, readTable)
  {
    var dfk: Entries<string, Entries<string, T>> := [];
    for i := 0 to |outer.names|
      invariant ReadModes(outer, outer.names[..i], readTable) == Success(dfk)
    {
      var item := outer.names[i];
      ModesStep(outer, outer.names, i, readTable, dfk);
      if !EndsWith(item, "/") {
        continue;
      }
      var modeId := Strip(item, '/');
      var path := TransitPath(modeId);
      if path !in outer.transit {
        ModesFailurePersists(outer, outer.names, i + 1, readTable);
        return Failure(MissingMember(path));
      }
      var tables := ReadTransitZip(outer.transit[path], readTable);
      if tables.Failure? {
        ModesFailurePersists(outer, outer.names, i + 1, readTable);
        return Failure(tables.error);
      }
      dfk := Assign(dfk, modeId, tables.value);
    }
    assert outer.names[..|outer.names|] == outer.names;
    return Success(dfk);
  }

  // ---- choosing where the bundle comes from ----

  /** An HTTP response: its status code and its body. */
  datatype Response = Response(status: int, content: seq<byte>)

  /**
   * `read_gtfs_zip`: the path must end in `.zip`; one containing `:` is
   * fetched, and a 200 response is opened from its bytes; a fetch that raises
   * ends the call with that error, with no fallback; a path without `:`, or a
   * URL whose fetch returned another status, is opened as a local path.
   */
  function ReadGtfsZip<F, T, E>(urlOrPath: string,
                                get: string -> Option<Response>,
                                openBytes: seq<byte> -> Option<OuterArchive<F>>,
                                openPath: string -> Option<OuterArchive<F>>,
                                readTable: (string, F) -> Result<T, E>): (r: Result<Entries<string, Entries<string, T>>, ArchiveError<E>>)
    ensures !EndsWith(urlOrPath, ".zip") ==> r == Failure(NotZip(urlOrPath))
    ensures EndsWith(urlOrPath, ".zip") && ':' in urlOrPath && get(urlOrPath).None? ==>
      r == Failure(FetchFailed(urlOrPath))
    ensures EndsWith(urlOrPath, ".zip") && ':' in urlOrPath && get(urlOrPath).Some? && get(urlOrPath).value.status == 200 ==>
      (if openBytes(get(urlOrPath).value.content).Some?
       then r == ReadModes(openBytes(get(urlOrPath).value.content).value, openBytes(get(urlOrPath).value.content).value.names, readTable)
       else r == Failure(BadArchive(urlOrPath)))
    ensures EndsWith(urlOrPath, ".zip") && (':' !in urlOrPath || (get(urlOrPath).Some? && get(urlOrPath).value.status != 200)) ==>
      (if openPath(urlOrPath).Some?
       then r == ReadModes(openPath(urlOrPath).value, openPath(urlOrPath).value.names, readTable)
       else r == Failure(BadArchive(urlOrPath)))
  {
    if !EndsWith(urlOrPath, ".zip") then Failure(NotZip(urlOrPath))
    else if ':' in urlOrPath && get(urlOrPath).None? then Failure(FetchFailed(urlOrPath))
    else
      var fetched := if ':' in urlOrPath && get(urlOrPath).value.status == 200 then openBytes(get(urlOrPath).value.content)
                     else openPath(urlOrPath);
      match fetched
      case None => Failure(BadArchive(urlOrPath))
      case Some(outer) => ReadModes(outer, outer.names, readTable)
  }

  /**
   * The default source is the PTV download URL: it passes the `.zip` check and
   * is fetched, so the local file system is never consulted for it.
   */
  lemma DefaultSourceIsFetched<F, T, E>(get: string -> Option<Response>,
                                        openBytes: seq<byte> -> Option<OuterArchive<F>>,
                                        openPath: string -> Option<OuterArchive<F>>,
                                        readTable: (string, F) -> Result<T, E>)
    ensures var r := ReadGtfsZip(DefaultGtfsUrl, get, openBytes, openPath, readTable);
      && (get(DefaultGtfsUrl).None? ==> r == Failure(FetchFailed(DefaultGtfsUrl)))
      && (get(DefaultGtfsUrl).Some? && get(DefaultGtfsUrl).value.status == 200 ==>
            r == match openBytes(get(DefaultGtfsUrl).value.content)
                 case None => Failure(BadArchive(DefaultGtfsUrl))
                 case Some(outer) => ReadModes(outer, outer.names, readTable))
  {
    assert DefaultGtfsUrl[4] == ':';
    assert EndsWith(DefaultGtfsUrl, ".zip") by {
      assert DefaultGtfsUrl[|DefaultGtfsUrl| - 4..] == ".zip";
    }
  }
}
