/** How the data-retrieval tool walks its data stores: each store's configuration is
    checked and looked up, its candidate manifests are tried one after another until a
    copy (or link) reports everything in place, and the first store that succeeds ends
    the search.

    Copying or linking the files of a manifest is an oracle, `transfer`, that returns
    what the file-system layer reports. The configuration is taken after its
    cycle-only dereference.
 */
module RetrieveControl {
  import opened Results
  import opened PyCollections
  import opened RetrieveManifests

  /** The file sets a non-disk store may be asked for. */
  const FileSets: seq<string> := ["anl", "fcst", "obs", "fix"]

  // ---------------------------------------------------------------------------
  // trying the manifests of one store

  /** What a copy or link reports: destinations now in place, and those that are not. */
  datatype Report = Report(ready: seq<string>, notReady: seq<string>)

  /** Copying (`false`) or linking (`true`) the entries of a manifest into the output
      directory. */
  type Transfer = (bool, Manifest) -> Report

  /** A manifest is accepted when something is in place and nothing is missing. */
  predicate Passes(rep: Report)
  {
    |rep.ready| > 0 && |rep.notReady| == 0
  }

  predicate NonePass(ms: seq<Manifest>, symlink: bool, transfer: Transfer)
  {
    forall j :: 0 <= j < |ms| ==> !Passes(transfer(symlink, ms[j]))
  }

  /** The position of the first manifest whose transfer passes, or `|ms|` if none does. */
  function FirstPassing(ms: seq<Manifest>, symlink: bool, transfer: Transfer): (i: nat)
    ensures i <= |ms|
    ensures forall j :: 0 <= j < i ==> !Passes(transfer(symlink, ms[j]))
    ensures i < |ms| ==> Passes(transfer(symlink, ms[i]))
  {
    if |ms| == 0 then 0
    else if Passes(transfer(symlink, ms[0])) then 0
    else 1 + FirstPassing(ms[1..], symlink, transfer)
  }

  /** The outcome of trying a store: the manifest that was accepted, or none. */
  datatype Found = Found(manifest: Manifest) | NotFound

  /** The manifests of a generator, tried in order: the first accepted one is returned;
      an exception the generator raises surfaces only once every manifest before it has
      been refused. */
  function TryManifests(g: Gen, symlink: bool, transfer: Transfer): (r: Result<Found>)
    ensures r.Success? && r.value.Found? ==>
              r.value.manifest in g.manifests && Passes(transfer(symlink, r.value.manifest))
    ensures r == Success(NotFound) <==> g.raised.None? && NonePass(g.manifests, symlink, transfer)
    ensures r.Failure? <==> g.raised.Some? && NonePass(g.manifests, symlink, transfer)
    ensures r.Failure? ==> r.error == g.raised.value
  {
    var i := FirstPassing(g.manifests, symlink, transfer);
    if i < |g.manifests| then Success(Found(g.manifests[i]))
    else if g.raised.Some? then Failure(g.raised.value)
    else Success(NotFound)
  }

  /** The accepted manifest is the first one accepted: every manifest before it was
      tried and refused. */
  lemma {:induction false} TryManifestsFirst(g: Gen, symlink: bool, transfer: Transfer)
    requires TryManifests(g, symlink, transfer).Success?
    requires TryManifests(g, symlink, transfer).value.Found?
    ensures exists i :: 0 <= i < |g.manifests| &&
              g.manifests[i] == TryManifests(g, symlink, transfer).value.manifest &&
              forall j :: 0 <= j < i ==> !Passes(transfer(symlink, g.manifests[j]))
  {
    var i := FirstPassing(g.manifests, symlink, transfer);
    assert g.manifests[i] == TryManifests(g, symlink, transfer).value.manifest;
  }

  /** The `for` loop over the manifests, counting the transfers it makes. */
  method TryManifestsLoop(g: Gen, symlink: bool, transfer: Transfer) returns (r: Result<Found>, tries: nat)
    ensures r == TryManifests(g, symlink, transfer)
    ensures var first := FirstPassing(g.manifests, symlink, transfer);
            tries == if first < |g.manifests| then first + 1 else |g.manifests|
  {
    var i := 0;
    while i < |g.manifests|
      invariant i <= |g.manifests|
      invariant forall j :: 0 <= j < i ==> !Passes(transfer(symlink, g.manifests[j]))
    {
      if Passes(transfer(symlink, g.manifests[i])) {
        return Success(Found(g.manifests[i])), i + 1;
      }
      i := i + 1;
    }
    if g.raised.Some? {
      return Failure(g.raised.value), i;
    }
    return Success(NotFound), i;
  }

  // ---------------------------------------------------------------------------
  // one store

  /** `archive_file_names`: one list, or lists keyed by file set. */
  datatype ArchiveNames = ArchiveList(names: seq<string>) | ArchiveBySet(bySet: map<string, FileNames>)

  /** The block of one store under a data type. */
  datatype StoreConfig = StoreConfig(
    locations: Option<seq<Location>>,
    fileNames: Option<map<string, FileNames>>,
    archiveFileNames: Entry<ArchiveNames>,
    archiveInternalDirs: Option<seq<string>>)

  /** The block of one data type: its standard file names and its stores. */
  datatype DataTypeConfig = DataTypeConfig(
    fileNames: Option<map<string, FileNames>>,
    stores: map<string, StoreConfig>)

  /** The request the tool was given, less the configuration. */
  datatype Request = Request(
    dataType: string,
    fileSet: string,
    fmt: Option<string>,
    fileTemplates: seq<string>,
    leadTimes: seq<int>,
    members: seq<int>,
    inpath: Option<string>,
    summaryFile: Option<string>,
    symlink: bool,
    cycle: int)

  /** The two readings of the source that this model keeps apart: the code as it is
      written, and the behaviour its help text and control flow evidently intend. */
  datatype Reading = AsWritten | Intended

  /** Python's `all(templates)`: no template is the empty string. */
  predicate AllNonEmpty(templates: seq<string>)
  {
    forall i :: 0 <= i < |templates| ==> |templates[i]| > 0
  }

  /** The templates tried, as written: the user's templates for the disk store whenever
      none of them is empty, which an empty list satisfies. */
  function TemplatesAsWritten(disk: bool, fileTemplates: seq<string>, storeNames: seq<string>,
                              standard: seq<string>): (t: seq<string>)
    ensures disk && AllNonEmpty(fileTemplates) ==> t == fileTemplates
    ensures !(disk && AllNonEmpty(fileTemplates)) ==> t == (if |storeNames| > 0 then storeNames else standard)
  {
    if AllNonEmpty(fileTemplates) && disk then fileTemplates
    else if |storeNames| > 0 then storeNames
    else standard
  }

  /** The templates tried, as intended: the user's templates for the disk store when
      some were given and none is empty; otherwise the store's own names, or failing
      those the data type's standard names. */
  function TemplatesIntended(disk: bool, fileTemplates: seq<string>, storeNames: seq<string>,
                             standard: seq<string>): (t: seq<string>)
    ensures t == fileTemplates || t == storeNames || t == standard
    ensures t == fileTemplates <== disk && |fileTemplates| > 0 && AllNonEmpty(fileTemplates)
    ensures |t| == 0 ==> |storeNames| == 0 && |standard| == 0
  {
    if |fileTemplates| > 0 && AllNonEmpty(fileTemplates) && disk then fileTemplates
    else if |storeNames| > 0 then storeNames
    else standard
  }

  function Templates(reading: Reading, disk: bool, fileTemplates: seq<string>, storeNames: seq<string>,
                     standard: seq<string>): seq<string>
  {
    match reading
    case AsWritten => TemplatesAsWritten(disk, fileTemplates, storeNames, standard)
    case Intended => TemplatesIntended(disk, fileTemplates, storeNames, standard)
  }

  /** The two readings differ only for the disk store asked for no templates at all,
      where the written code tries no file names. */
  lemma {:induction false} TemplatesReadingsAgree(disk: bool, fileTemplates: seq<string>,
                                                 storeNames: seq<string>, standard: seq<string>)
    ensures TemplatesAsWritten(disk, fileTemplates, storeNames, standard) !=
              TemplatesIntended(disk, fileTemplates, storeNames, standard)
            <==> disk && |fileTemplates| == 0 && (if |storeNames| > 0 then storeNames else standard) != []
  {
  }

  /** As written, the disk store without `--file-templates` tries no names even though
      the data type has standard names. */
  lemma NoTemplatesAsWritten()
    ensures TemplatesAsWritten(true, [], [], ["gfs.t00z.atmf000.nc"]) == []
    ensures TemplatesIntended(true, [], [], ["gfs.t00z.atmf000.nc"]) == ["gfs.t00z.atmf000.nc"]
  {
    assert AllNonEmpty([]);
  }

  /** The store's own names: looked up only for a store other than disk, and only
      when its `file_names` entry is present and not empty. */
  function StoreNames(store: string, sc: StoreConfig, fmt: Option<string>, fileSet: string): (names: seq<string>)
    ensures store == "disk" || sc.fileNames.None? || sc.fileNames.value == map[] ==> names == []
  {
    if store != "disk" && sc.fileNames.Some? && sc.fileNames.value != map[] then
      GetFileNames(sc.fileNames.value, fmt, fileSet)
    else []
  }

  /** The archive names of the hpss store: a missing entry is a key error, a null one
      is passed on as `None`. */
  function ArchiveNamesOf(sc: StoreConfig, fmt: Option<string>, fileSet: string): (r: Result<Option<seq<string>>>)
    ensures r.Failure? <==> sc.archiveFileNames.Missing?
    ensures r.Failure? ==> r.error == KeyError("archive_file_names")
    ensures r.Success? ==> (r.value.None? <==> sc.archiveFileNames.Null?)
  {
    match sc.archiveFileNames
    case Missing => Failure(KeyError("archive_file_names"))
    case Null => Success(None)
    case Given(ArchiveList(names)) => Success(Some(names))
    case Given(ArchiveBySet(bySet)) => Success(Some(GetFileNames(bySet, fmt, fileSet)))
  }

  /** The candidate manifests of a store: the archive walk for hpss (whose archive
      names must not be null), the location walk for every other store. */
  function StoreManifests(store: string, locations: seq<Location>, sc: StoreConfig,
                          archiveNames: Option<seq<string>>, templates: seq<string>,
                          req: Request, render: Render): (r: Result<Gen>)
    ensures r.Failure? <==> store == "hpss" && archiveNames.None?
    ensures r.Failure? ==> r.error == AssertionFailed("archive_names is not None")
  {
    if store == "hpss" then
      if archiveNames.None? then Failure(AssertionFailed("archive_names is not None"))
      else Success(PossibleHpssConfigs(locations, sc.archiveInternalDirs, archiveNames.value,
                                       req.members, req.leadTimes, templates, render, req.cycle))
    else
      Success(PrepareFsCopyConfig(locations, req.members, req.leadTimes, templates, render, req.cycle))
  }

  /** One pass of the store loop, up to the result of trying the store: the store's
      checks, its lookups in the configuration in the order the call evaluates them,
      then its manifests. */
  function StoreAttempt(reading: Reading, dt: DataTypeConfig, standard: seq<string>, store: string,
                        req: Request, render: Render, transfer: Transfer): (r: Result<Found>)
    ensures store == "disk" && req.inpath.None? ==> r == Failure(AssertionFailed("inpath is not None"))
    ensures store != "disk" && req.fileSet !in FileSets ==> r == Failure(AssertionFailed("file_set in FILE_SETS"))
    ensures store != "disk" && req.fileSet in FileSets && store !in dt.stores ==> r == Failure(KeyError(store))
    ensures r.Failure? && r.error.KeyError? ==> store != "disk"
    ensures r.Success? && r.value.Found? ==> Passes(transfer(req.symlink, r.value.manifest))
  {
    if store == "disk" && req.inpath.None? then Failure(AssertionFailed("inpath is not None"))
    else if store != "disk" && req.fileSet !in FileSets then Failure(AssertionFailed("file_set in FILE_SETS"))
    else if store != "disk" && store !in dt.stores then Failure(KeyError(store))
    else
      var sc := if store == "disk" then StoreConfig(None, None, Missing, None) else dt.stores[store];
      var archiveNames :- if store == "hpss" then ArchiveNamesOf(sc, req.fmt, req.fileSet) else Success(None);
      var templates := Templates(reading, store == "disk", req.fileTemplates,
                                 StoreNames(store, sc, req.fmt, req.fileSet), standard);
      var locations :- if store == "disk" then Success([Single(req.inpath.value)])
                       else if sc.locations.None? then Failure(KeyError("locations"))
                       else Success(sc.locations.value);
      var g :- StoreManifests(store, locations, sc, archiveNames, templates, req, render);
      TryManifests(g, req.symlink, transfer)
  }

  /** The disk store reads nothing of the data type's store blocks: it copies from the
      input path alone. */
  lemma {:induction false} DiskIgnoresStoreBlocks(reading: Reading, dt: DataTypeConfig, dt': DataTypeConfig,
                                                  standard: seq<string>, req: Request,
                                                  render: Render, transfer: Transfer)
    ensures StoreAttempt(reading, dt, standard, "disk", req, render, transfer) ==
              StoreAttempt(reading, dt', standard, "disk", req, render, transfer)
  {
  }

  /** The disk store with a path tries the path as its only location. */
  lemma {:induction false} DiskUsesInputPath(reading: Reading, dt: DataTypeConfig, standard: seq<string>,
                                             req: Request, render: Render, transfer: Transfer)
    requires req.inpath.Some?
    ensures var templates := Templates(reading, true, req.fileTemplates, [], standard);
            StoreAttempt(reading, dt, standard, "disk", req, render, transfer) ==
              TryManifests(PrepareFsCopyConfig([Single(req.inpath.value)], req.members, req.leadTimes,
                                               templates, render, req.cycle), req.symlink, transfer)
  {
  }

  // ---------------------------------------------------------------------------
  // the store loop

  /** Trying one store by name. */
  type Attempt = string -> Result<Found>

  function AttemptOf(reading: Reading, dt: DataTypeConfig, standard: seq<string>, req: Request,
                     render: Render, transfer: Transfer): Attempt
  {
    (store: string) => StoreAttempt(reading, dt, standard, store, req, render, transfer)
  }

  /** The stores in priority order, each tried until one succeeds; an exception in a
      store ends the loop. */
  function StoreLoop(stores: seq<string>, attempt: Attempt): (r: Result<Found>)
    ensures |stores| == 0 ==> r == Success(NotFound)
    decreases |stores|
  {
    if |stores| == 0 then Success(NotFound)
    else
      var found :- attempt(stores[0]);
      if found.Found? then Success(found)
      else StoreLoop(stores[1..], attempt)
  }

  /** The position of the first store that does not come back empty-handed, or
      `|stores|` if none does. */
  function FirstDecisive(stores: seq<string>, attempt: Attempt): (k: nat)
    ensures k <= |stores|
    ensures forall j :: 0 <= j < k ==> attempt(stores[j]) == Success(NotFound)
    ensures k < |stores| ==> attempt(stores[k]) != Success(NotFound)
  {
    if |stores| == 0 || attempt(stores[0]) != Success(NotFound) then 0
    else 1 + FirstDecisive(stores[1..], attempt)
  }

  /** The loop's outcome is the outcome of the first store that found something or
      failed, and nothing found when every store found nothing. */
  lemma {:induction false} StoreLoopFirst(stores: seq<string>, attempt: Attempt)
    ensures var k := FirstDecisive(stores, attempt);
            StoreLoop(stores, attempt) == if k < |stores| then attempt(stores[k]) else Success(NotFound)
    decreases |stores|
  {
    if |stores| > 0 && attempt(stores[0]) == Success(NotFound) {
      StoreLoopFirst(stores[1..], attempt);
    }
  }

  /** What retrieving data ends with: whether a store succeeded, and the summary file
      written, if any: its path and the manifest that was accepted. */
  datatype Retrieval = Retrieval(success: bool, summary: Option<(string, Manifest)>)

  /** The whole of retrieving data: the data type's standard names are looked up, then
      the stores are tried in order. An empty list of stores leaves the result variable
      unassigned as written; as intended it reports failure. */
  function RetrieveData(reading: Reading, config: map<string, DataTypeConfig>, stores: seq<string>,
                        req: Request, render: Render, transfer: Transfer): (r: Result<Retrieval>)
    ensures req.dataType !in config ==> r == Failure(KeyError(req.dataType))
    ensures req.dataType in config && config[req.dataType].fileNames.None? ==> r == Failure(KeyError("file_names"))
    ensures r.Success? ==> (r.value.summary.Some? <==> r.value.success && req.summaryFile.Some?)
    ensures r.Success? && r.value.summary.Some? ==> r.value.summary.value.0 == req.summaryFile.value
  {
    if req.dataType !in config then Failure(KeyError(req.dataType))
    else
      var dt := config[req.dataType];
      if dt.fileNames.None? then Failure(KeyError("file_names"))
      else
        var standard := GetFileNames(dt.fileNames.value, req.fmt, req.fileSet);
        var found :- StoreLoop(stores, AttemptOf(reading, dt, standard, req, render, transfer));
        match found
        case Found(m) =>
          Success(Retrieval(true, if req.summaryFile.Some? then Some((req.summaryFile.value, m)) else None))
        case NotFound =>
          if |stores| == 0 && reading.AsWritten? then Failure(UnboundLocal("success"))
          else Success(Retrieval(false, None))
  }

  /** A successful retrieval comes from the first store that did not come back
      empty-handed, every store before it having found nothing; that store accepted a
      manifest, and the summary records it. */
  lemma {:induction false} RetrieveDataSuccess(reading: Reading, config: map<string, DataTypeConfig>,
                                               stores: seq<string>, req: Request, render: Render,
                                               transfer: Transfer)
    requires RetrieveData(reading, config, stores, req, render, transfer).Success?
    requires RetrieveData(reading, config, stores, req, render, transfer).value.success
    ensures var dt := config[req.dataType];
            var standard := GetFileNames(dt.fileNames.value, req.fmt, req.fileSet);
            var attempt := AttemptOf(reading, dt, standard, req, render, transfer);
            var k := FirstDecisive(stores, attempt);
            var r := RetrieveData(reading, config, stores, req, render, transfer).value;
            && k < |stores|
            && attempt(stores[k]).Success? && attempt(stores[k]).value.Found?
            && Passes(transfer(req.symlink, attempt(stores[k]).value.manifest))
            && (req.summaryFile.Some? ==> r.summary == Some((req.summaryFile.value, attempt(stores[k]).value.manifest)))
  {
    var dt := config[req.dataType];
    var standard := GetFileNames(dt.fileNames.value, req.fmt, req.fileSet);
    StoreLoopFirst(stores, AttemptOf(reading, dt, standard, req, render, transfer));
  }

  /** As written, asking for no stores at all ends in an unbound local. */
  lemma {:induction false} NoStoresAsWritten(config: map<string, DataTypeConfig>, req: Request,
                                             render: Render, transfer: Transfer)
    requires req.dataType in config && config[req.dataType].fileNames.Some?
    ensures RetrieveData(AsWritten, config, [], req, render, transfer) == Failure(UnboundLocal("success"))
  {
  }

  /** As intended, asking for no stores reports that nothing was retrieved. */
  lemma {:induction false} NoStoresIntended(config: map<string, DataTypeConfig>, req: Request,
                                            render: Render, transfer: Transfer)
    requires req.dataType in config && config[req.dataType].fileNames.Some?
    ensures RetrieveData(Intended, config, [], req, render, transfer) == Success(Retrieval(false, None))
  {
  }
}
