/** The candidate copy manifests of the data-retrieval tool: one store's guesses at
    where every requested file lives, each a map from a name under the output directory
    to a source address.

    Rendering a template against a context (the Jinja dereference of a configuration
    block) is an oracle, `render`, applied to every key and every value of a file item.
    It stands for the whole rendering step, including the store configuration whose
    values the context is merged with.
 */
module RetrieveManifests {
  import opened Results
  import opened Text
  import opened PyCollections

  /** A copy manifest: destination name to source address. */
  type Manifest = map<string, string>

  /** The values a template is rendered with: the cycle, the lead time (both in
      seconds) and the ensemble member. */
  datatype Context = Context(cycle: int, leadTime: int, member: int)

  type Render = (Context, string) -> string

  /** A configured location: one directory or URL, or a list of them, one per file
      template. */
  datatype Location = Single(path: string) | Siblings(paths: seq<string>)

  /** What a manifest generator produced: the manifests it yielded, in order, and the
      exception it raised after them, if any. */
  datatype Gen = Gen(manifests: seq<Manifest>, raised: Option<Error>)

  // ---------------------------------------------------------------------------
  // file names

  /** A `file_names` entry: a plain list, or lists keyed by file format. */
  datatype FileNames = NameList(names: seq<string>) | ByFormat(formats: map<string, seq<string>>)

  /** The names configured for a file set; a missing file set or format gives no
      names, and a format of `None` is looked up as `""`. */
  function GetFileNames(config: map<string, FileNames>, fmt: Option<string>, fileSet: string): (names: seq<string>)
    ensures fileSet !in config ==> names == []
    ensures fileSet in config && config[fileSet].NameList? ==> names == config[fileSet].names
    ensures fileSet in config && config[fileSet].ByFormat? ==>
              var key := if fmt.Some? then fmt.value else "";
              names == (if key in config[fileSet].formats then config[fileSet].formats[key] else [])
  {
    if fileSet !in config then []
    else match config[fileSet]
      case NameList(names) => names
      case ByFormat(formats) =>
        var key := if fmt.None? || fmt.value == "" then "" else fmt.value;
        if key in formats then formats[key] else []
  }

  /** A plain list does not depend on the format asked for. */
  lemma {:induction false} ListIgnoresFormat(config: map<string, FileNames>, f: Option<string>, g: Option<string>, fileSet: string)
    requires fileSet in config && config[fileSet].NameList?
    ensures GetFileNames(config, f, fileSet) == GetFileNames(config, g, fileSet)
  {
  }

  /** No format and the empty format name look up the same list. */
  lemma {:induction false} NoFormatIsEmptyFormat(config: map<string, FileNames>, fileSet: string)
    ensures GetFileNames(config, None, fileSet) == GetFileNames(config, Some(""), fileSet)
  {
  }

  // ---------------------------------------------------------------------------
  // destination names

  const NoMember := -999

  /** The directory an ensemble member's files go to, `memNNN/`; nothing when no
      member is named. */
  function MemberPrefix(member: int): (p: string)
    ensures member == NoMember <==> p == ""
    ensures member != NoMember ==> |p| >= 7 && p[..3] == "mem" && p[|p| - 1] == '/'
  {
    if member != NoMember then "mem" + ZeroPadded(member, 3) + "/" else ""
  }

  /** The destination of a file template for a member. */
  function TargetKey(member: int, template: string): string
  {
    MemberPrefix(member) + template
  }

  lemma {:induction false} ZeroPaddedSlashFree(n: int, w: nat)
    ensures Free(ZeroPadded(n, w), '/')
  {
    var sign := if n < 0 then "-" else "";
    var digits := NatText(Abs(n));
    var zeros := Repeat('0', Fill(w, |sign| + |digits|));
    assert ZeroPadded(n, w) == sign + zeros + digits;
  }

  lemma {:induction false} SlashSeparates(p: string, q: string, t: string, u: string)
    requires Free(p, '/') && Free(q, '/')
    requires p + "/" + t == q + "/" + u
    ensures p == q && t == u
  {
    var s := p + "/" + t;
    assert s[|p|] == '/';
    assert (q + "/" + u)[|q|] == '/';
    assert forall k :: 0 <= k < |p| ==> s[k] == p[k];
    assert forall k :: 0 <= k < |q| ==> (q + "/" + u)[k] == q[k];
    assert |p| == |q|;
    assert p == s[..|p|] == q;
    assert t == s[|p| + 1..] == u;
  }

  /** Behind a common head, a slash-free part and the rest can be read back. */
  lemma {:induction false} HeadSlashSeparates(h: string, x: string, y: string, t: string, u: string)
    requires Free(x, '/') && Free(y, '/')
    requires h + x + "/" + t == h + y + "/" + u
    ensures x == y && t == u
  {
    var s := h + x + "/" + t;
    assert s[|h|..] == x + "/" + t;
    assert (h + y + "/" + u)[|h|..] == y + "/" + u;
    SlashSeparates(x, y, t, u);
  }

  /** Two members' destinations never collide: the member and the template can be read
      back from the name. */
  lemma {:induction false} TargetKeyInjective(m: int, n: int, t: string, u: string)
    requires m != NoMember && n != NoMember
    requires TargetKey(m, t) == TargetKey(n, u)
    ensures m == n && t == u
  {
    var x := ZeroPadded(m, 3);
    var y := ZeroPadded(n, 3);
    ZeroPaddedSlashFree(m, 3);
    ZeroPaddedSlashFree(n, 3);
    assert TargetKey(m, t) == "mem" + x + "/" + t;
    assert TargetKey(n, u) == "mem" + y + "/" + u;
    HeadSlashSeparates("mem", x, y, t, u);
    ZeroPaddedInjective(m, n, 3);
  }

  /** Without a member the destination is the template itself. */
  lemma {:induction false} TargetKeyNoMember(t: string)
    ensures TargetKey(NoMember, t) == t
  {
  }

  // ---------------------------------------------------------------------------
  // the steps of the member and lead-time loops

  datatype Step = Step(member: int, leadTime: int)

  /** Every member with every lead time, members outermost. */
  function Steps(members: seq<int>, leadTimes: seq<int>): seq<Step>
  {
    Flatten(StepBlocks(members, leadTimes))
  }

  /** One block of steps per member. */
  function StepBlocks(members: seq<int>, leadTimes: seq<int>): (b: seq<seq<Step>>)
    ensures |b| == |members|
    ensures forall i :: 0 <= i < |b| ==> |b[i]| == |leadTimes|
    ensures forall i, j :: 0 <= i < |b| && 0 <= j < |leadTimes| ==> b[i][j] == Step(members[i], leadTimes[j])
  {
    seq(|members|, i requires 0 <= i < |members| =>
      seq(|leadTimes|, j requires 0 <= j < |leadTimes| => Step(members[i], leadTimes[j])))
  }

  /** Member `i` with lead time `j` is step `i * |leadTimes| + j`, and there are no others. */
  lemma {:induction false} StepsOrder(members: seq<int>, leadTimes: seq<int>, i: nat, j: nat)
    requires i < |members| && j < |leadTimes|
    ensures |Steps(members, leadTimes)| == |members| * |leadTimes|
    ensures i * |leadTimes| + j < |Steps(members, leadTimes)|
    ensures Steps(members, leadTimes)[i * |leadTimes| + j] == Step(members[i], leadTimes[j])
  {
    var blocks := StepBlocks(members, leadTimes);
    FlattenLength(blocks, |leadTimes|);
    FlattenIndex(blocks, |leadTimes|, i, j);
  }

  function ContextOf(cycle: int, step: Step): Context
  {
    Context(cycle, step.leadTime, step.member)
  }

  // ---------------------------------------------------------------------------
  // rendering

  function RenderPairs(render: Render, ctx: Context, pairs: Pairs): (r: Pairs)
    ensures |r| == |pairs|
    ensures forall i :: 0 <= i < |r| ==> r[i] == (render(ctx, pairs[i].0), render(ctx, pairs[i].1))
  {
    if |pairs| == 0 then [] else [(render(ctx, pairs[0].0), render(ctx, pairs[0].1))] + RenderPairs(render, ctx, pairs[1..])
  }

  /** A file item after it is dereferenced: every key and value rendered, and keys that
      render alike collapsed into one. */
  function Dereference(render: Render, ctx: Context, item: Pairs): (r: Pairs)
    ensures forall j :: 0 <= j < |item| ==> render(ctx, item[j].0) in KeysOf(r)
  {
    var rendered := RenderPairs(render, ctx, item);
    assert forall j :: 0 <= j < |item| ==> rendered[j].0 == render(ctx, item[j].0);
    DictOf(rendered)
  }

  // ---------------------------------------------------------------------------
  // disk and URL stores

  /** `{prefix + fn: path/fn for fn in templates}` before it becomes a dict. */
  function SingleItem(prefix: string, path: string, templates: seq<string>): (r: Pairs)
    ensures |r| == |templates|
    ensures forall i :: 0 <= i < |r| ==> r[i] == (prefix + templates[i], path + "/" + templates[i])
  {
    if |templates| == 0 then []
    else [(prefix + templates[0], path + "/" + templates[0])] + SingleItem(prefix, path, templates[1..])
  }

  /** `{prefix + fn: loc/fn for loc, fn in zip(paths, templates)}` before it becomes a
      dict. */
  function ZipItem(prefix: string, paths: seq<string>, templates: seq<string>): (r: Pairs)
    requires |paths| == |templates|
    ensures |r| == |templates|
    ensures forall i :: 0 <= i < |r| ==> r[i] == (prefix + templates[i], paths[i] + "/" + templates[i])
  {
    if |templates| == 0 then []
    else [(prefix + templates[0], paths[0] + "/" + templates[0])] + ZipItem(prefix, paths[1..], templates[1..])
  }

  /** The rendered file item of one member and lead time at one location. A list of
      locations whose length differs from the number of templates builds no item, and the
      item of the previous step (`previous`) is rendered again; before any item exists
      that is an unbound local. */
  function FileItem(previous: Option<Pairs>, loc: Location, step: Step, templates: seq<string>,
                    render: Render, cycle: int): (r: Result<Pairs>)
    ensures r.Failure? <==> loc.Siblings? && |loc.paths| != |templates| && previous.None?
    ensures r.Failure? ==> r.error == UnboundLocal("file_item")
  {
    var prefix := MemberPrefix(step.member);
    var ctx := ContextOf(cycle, step);
    match loc
    case Single(path) => Success(Dereference(render, ctx, DictOf(SingleItem(prefix, path, templates))))
    case Siblings(paths) =>
      if |paths| == |templates| then
        Success(Dereference(render, ctx, DictOf(ZipItem(prefix, paths, templates))))
      else if previous.Some? then Success(Dereference(render, ctx, previous.value))
      else Failure(UnboundLocal("file_item"))
  }

  /** The directory or URL a location gives the `i`-th template. */
  function SourceOf(loc: Location, i: nat): string
    requires loc.Single? || i < |loc.paths|
  {
    if loc.Single? then loc.path else loc.paths[i]
  }

  /** The rendered dict of some raw pairs holds every rendered key, and each of its
      entries is some raw pair, rendered. */
  lemma {:induction false} DereferencedFrom(render: Render, ctx: Context, raw: Pairs)
    ensures var r := Dereference(render, ctx, DictOf(raw));
            && (forall i :: 0 <= i < |raw| ==> render(ctx, raw[i].0) in KeysOf(r))
            && (forall e :: 0 <= e < |r| ==>
                  exists i :: 0 <= i < |raw| && r[e] == (render(ctx, raw[i].0), render(ctx, raw[i].1)))
  {
    DereferencedKeys(render, ctx, raw);
    DereferencedEntries(render, ctx, raw);
  }

  lemma {:induction false} DereferencedKeys(render: Render, ctx: Context, raw: Pairs)
    ensures forall i :: 0 <= i < |raw| ==> render(ctx, raw[i].0) in KeysOf(Dereference(render, ctx, DictOf(raw)))
  {
    var item := DictOf(raw);
    forall i | 0 <= i < |raw| ensures render(ctx, raw[i].0) in KeysOf(Dereference(render, ctx, item)) {
      assert raw[i].0 in KeysOf(item);
      KeyWitness(item, raw[i].0);
      var j :| 0 <= j < |item| && item[j].0 == raw[i].0;
    }
  }

  lemma {:induction false} DereferencedEntries(render: Render, ctx: Context, raw: Pairs)
    ensures var r := Dereference(render, ctx, DictOf(raw));
            forall e :: 0 <= e < |r| ==>
              exists i :: 0 <= i < |raw| && r[e] == (render(ctx, raw[i].0), render(ctx, raw[i].1))
  {
    var item := DictOf(raw);
    var rendered := RenderPairs(render, ctx, item);
    var r := DictOf(rendered);
    assert r == Dereference(render, ctx, item);
    forall e | 0 <= e < |r|
      ensures exists i :: 0 <= i < |raw| && r[e] == (render(ctx, raw[i].0), render(ctx, raw[i].1))
    {
      EntryOf(r[e], rendered);
      var j :| 0 <= j < |rendered| && rendered[j] == r[e];
      EntryOf(item[j], raw);
      var i :| 0 <= i < |raw| && raw[i] == item[j];
    }
  }

  lemma {:induction false} EntryOf(p: (string, string), raw: Pairs)
    requires p in raw
    ensures exists i :: 0 <= i < |raw| && raw[i] == p
  {
  }

  /** The entries a location contributes for one step: every template's destination,
      rendered, maps to the rendered template under that location (paired by position
      for a list of locations), and nothing else. */
  lemma {:induction false} FileItemEntries(previous: Option<Pairs>, loc: Location, step: Step,
                                           templates: seq<string>, render: Render, cycle: int)
    requires loc.Single? || |loc.paths| == |templates|
    ensures var r := FileItem(previous, loc, step, templates, render, cycle);
            var ctx := ContextOf(cycle, step);
            && r.Success?
            && (forall i :: 0 <= i < |templates| ==>
                  render(ctx, TargetKey(step.member, templates[i])) in KeysOf(r.value))
            && (forall e :: 0 <= e < |r.value| ==>
                  exists i :: 0 <= i < |templates| &&
                    r.value[e] == (render(ctx, TargetKey(step.member, templates[i])),
                                   render(ctx, SourceOf(loc, i) + "/" + templates[i])))
  {
    var prefix := MemberPrefix(step.member);
    var ctx := ContextOf(cycle, step);
    var raw := if loc.Single? then SingleItem(prefix, loc.path, templates) else ZipItem(prefix, loc.paths, templates);
    assert forall i :: 0 <= i < |raw| ==>
             raw[i] == (TargetKey(step.member, templates[i]), SourceOf(loc, i) + "/" + templates[i]);
    var r := Dereference(render, ctx, DictOf(raw));
    assert FileItem(previous, loc, step, templates, render, cycle) == Success(r);
    DereferencedFrom(render, ctx, raw);
  }

  /** How one step builds its item from the item of the step before, if any. */
  type ItemBuilder = (Option<Pairs>, Step) -> Result<Pairs>

  /** The loop over steps in which each step sees the item the step before built. */
  function Threaded(previous: Option<Pairs>, steps: seq<Step>, build: ItemBuilder): (r: Result<seq<Pairs>>)
    ensures r.Success? ==> |r.value| == |steps|
    decreases |steps|
  {
    if |steps| == 0 then Success([])
    else
      var item :- build(previous, steps[0]);
      var rest :- Threaded(Some(item), steps[1..], build);
      Success([item] + rest)
  }

  /** Item `k` of the loop is what the builder makes of step `k` and item `k - 1`. */
  lemma {:induction false} ThreadedAt(previous: Option<Pairs>, steps: seq<Step>, build: ItemBuilder, k: nat)
    requires Threaded(previous, steps, build).Success?
    requires k < |steps|
    ensures var items := Threaded(previous, steps, build).value;
            Success(items[k]) == build(if k == 0 then previous else Some(items[k - 1]), steps[k])
    decreases k
  {
    var items := Threaded(previous, steps, build).value;
    var first := build(previous, steps[0]).value;
    var rest := Threaded(Some(first), steps[1..], build).value;
    assert items == [first] + rest;
    ConsIndex(first, rest, k);
    if k > 0 {
      ThreadedAt(Some(first), steps[1..], build, k - 1);
      assert steps[1..][k - 1] == steps[k];
      ConsIndex(first, rest, k - 1);
    }
  }

  /** The loop fails only with an error some step failed with. */
  lemma {:induction false} ThreadedFailure(previous: Option<Pairs>, steps: seq<Step>, build: ItemBuilder, e: Error)
    requires forall p, st :: build(p, st).Failure? ==> build(p, st).error == e
    ensures Threaded(previous, steps, build).Failure? ==> Threaded(previous, steps, build).error == e
    decreases |steps|
  {
    if |steps| > 0 && build(previous, steps[0]).Success? {
      ThreadedFailure(Some(build(previous, steps[0]).value), steps[1..], build, e);
    }
  }

  function FileItemBuilder(loc: Location, templates: seq<string>, render: Render, cycle: int): ItemBuilder
  {
    (p: Option<Pairs>, st: Step) => FileItem(p, loc, st, templates, render, cycle)
  }

  /** The file items of one location, one per step in order, each step seeing the item
      of the step before. */
  function LocationItems(previous: Option<Pairs>, loc: Location, steps: seq<Step>,
                         templates: seq<string>, render: Render, cycle: int): (r: Result<seq<Pairs>>)
    ensures r.Success? ==> |r.value| == |steps|
    ensures r.Failure? ==> r.error == UnboundLocal("file_item")
  {
    ThreadedFailure(previous, steps, FileItemBuilder(loc, templates, render, cycle), UnboundLocal("file_item"));
    Threaded(previous, steps, FileItemBuilder(loc, templates, render, cycle))
  }

  /** Step by step, what `LocationItems` builds is what `FileItem` builds. */
  lemma {:induction false} LocationItemAt(previous: Option<Pairs>, loc: Location, steps: seq<Step>,
                                          templates: seq<string>, render: Render, cycle: int, k: nat)
    requires LocationItems(previous, loc, steps, templates, render, cycle).Success?
    requires k < |steps|
    ensures var items := LocationItems(previous, loc, steps, templates, render, cycle).value;
            Success(items[k]) ==
              FileItem(if k == 0 then previous else Some(items[k - 1]), loc, steps[k], templates, render, cycle)
  {
    ThreadedAt(previous, steps, FileItemBuilder(loc, templates, render, cycle), k);
  }

  /** The file items of every location, in order, grouped by location, and the exception
      that cut the walk short, if any. */
  datatype Trace = Trace(items: seq<seq<Pairs>>, raised: Option<Error>)

  function FsItems(previous: Option<Pairs>, locations: seq<Location>, steps: seq<Step>,
                   templates: seq<string>, render: Render, cycle: int): (t: Trace)
    ensures t.raised.None? <==> |t.items| == |locations|
    ensures |t.items| <= |locations|
    ensures t.raised.Some? ==> t.raised.value == UnboundLocal("file_item")
    ensures forall k :: 0 <= k < |t.items| ==> |t.items[k]| == |steps|
    decreases |locations|
  {
    if |locations| == 0 then Trace([], None)
    else
      match LocationItems(previous, locations[0], steps, templates, render, cycle)
      case Failure(e) => Trace([], Some(e))
      case Success(items) =>
        var next := if |items| > 0 then Some(items[|items| - 1]) else previous;
        var rest := FsItems(next, locations[1..], steps, templates, render, cycle);
        Trace([items] + rest.items, rest.raised)
  }

  /** The manifest yielded after each location: the one accumulator, updated with every
      file item of that location. */
  function Accumulate(acc: Manifest, perLocation: seq<seq<Pairs>>): (ms: seq<Manifest>)
    ensures |ms| == |perLocation|
    decreases |perLocation|
  {
    if |perLocation| == 0 then []
    else
      var next := UpdateAll(acc, perLocation[0]);
      [next] + Accumulate(next, perLocation[1..])
  }

  /** The manifests for disk and URL stores: one per location, each holding everything
      gathered for the locations so far. */
  function PrepareFsCopyConfig(locations: seq<Location>, members: seq<int>, leadTimes: seq<int>,
                               templates: seq<string>, render: Render, cycle: int): (g: Gen)
    ensures g.raised.None? ==> |g.manifests| == |locations|
    ensures g.raised.Some? ==> |g.manifests| < |locations| && g.raised.value == UnboundLocal("file_item")
  {
    var t := FsItems(None, locations, Steps(members, leadTimes), templates, render, cycle);
    Gen(Accumulate(map[], t.items), t.raised)
  }

  /** The `k`-th manifest is the union of the entries of locations `0..k`, a later entry
      replacing an earlier one with the same key. */
  lemma {:induction false} AccumulateIsUnion(acc: Manifest, perLocation: seq<seq<Pairs>>, k: nat)
    requires k < |perLocation|
    ensures Accumulate(acc, perLocation)[k] == Update(acc, Flatten(Flatten(perLocation[..k + 1])))
    decreases k
  {
    var first := UpdateAll(acc, perLocation[0]);
    var later := Accumulate(first, perLocation[1..]);
    var rest := perLocation[1..][..k];
    assert Accumulate(acc, perLocation) == [first] + later;
    ConsIndex(first, later, k);
    UpdateAllFlat(acc, perLocation[0]);
    FlattenPrefixHead(perLocation, k);
    FlattenAppend(perLocation[0], Flatten(rest));
    UpdateAppend(acc, Flatten(perLocation[0]), Flatten(Flatten(rest)));
    if k == 0 {
      assert Flatten(Flatten(rest)) == [];
    } else {
      AccumulateIsUnion(first, perLocation[1..], k - 1);
    }
  }

  /** A manifest only grows: nothing gathered for earlier locations is dropped. */
  lemma {:induction false} AccumulateGrows(acc: Manifest, perLocation: seq<seq<Pairs>>, k: nat)
    requires 0 < k < |perLocation|
    ensures Accumulate(acc, perLocation)[k - 1].Keys <= Accumulate(acc, perLocation)[k].Keys
    decreases k
  {
    if k > 1 {
      AccumulateGrows(UpdateAll(acc, perLocation[0]), perLocation[1..], k - 1);
    }
  }

  // ---------------------------------------------------------------------------
  // tape archive

  /** Python's `str()` of a list of strings. */
  function ListRepr(items: seq<string>): string
  {
    "[" + QuotedItems(items) + "]"
  }

  function QuotedItems(items: seq<string>): string
  {
    if |items| == 0 then ""
    else if |items| == 1 then "'" + items[0] + "'"
    else "'" + items[0] + "', " + QuotedItems(items[1..])
  }

  function LocationText(loc: Location): string
  {
    match loc
    case Single(path) => path
    case Siblings(paths) => ListRepr(paths)
  }

  /** The address of one archive member directory: `htar://loc/name?dir`. */
  function HtarAddress(loc: Location, name: string, dir: string): (a: string)
    ensures |a| >= 7 && a[..7] == "htar://"
  {
    "htar://" + LocationText(loc) + "/" + name + "?" + dir
  }

  /** The entries one step adds to an archive manifest: for each template, the
      rendered destination and the rendered address of the template under `address`. */
  function StepEntries(address: string, step: Step, templates: seq<string>,
                       render: Render, cycle: int): (r: Pairs)
    ensures |r| == |templates|
    ensures forall i :: 0 <= i < |r| ==>
              r[i] == (render(ContextOf(cycle, step), TargetKey(step.member, templates[i])),
                       render(ContextOf(cycle, step), address + "/" + templates[i]))
  {
    var ctx := ContextOf(cycle, step);
    seq(|templates|, i requires 0 <= i < |templates| =>
      (render(ctx, TargetKey(step.member, templates[i])), render(ctx, address + "/" + templates[i])))
  }

  /** The entries of one archive manifest, step by step. */
  function HpssEntries(address: string, steps: seq<Step>, templates: seq<string>,
                       render: Render, cycle: int): Pairs
  {
    Flatten(StepEntryBlocks(address, steps, templates, render, cycle))
  }

  function StepEntryBlocks(address: string, steps: seq<Step>, templates: seq<string>,
                           render: Render, cycle: int): (b: seq<Pairs>)
    ensures |b| == |steps|
    ensures forall s :: 0 <= s < |b| ==> b[s] == StepEntries(address, steps[s], templates, render, cycle)
  {
    seq(|steps|, s requires 0 <= s < |steps| => StepEntries(address, steps[s], templates, render, cycle))
  }

  /** One archive manifest: a fresh map built from its own entries only. */
  function HpssManifest(address: string, steps: seq<Step>, templates: seq<string>,
                        render: Render, cycle: int): Manifest
  {
    Update(map[], HpssEntries(address, steps, templates, render, cycle))
  }

  /** Every entry of an archive manifest names a requested destination and the same
      template under the manifest's own address; every requested destination is there. */
  lemma {:induction false} HpssManifestEntries(address: string, steps: seq<Step>, templates: seq<string>,
                            render: Render, cycle: int)
    ensures var m := HpssManifest(address, steps, templates, render, cycle);
            && (forall s, i :: 0 <= s < |steps| && 0 <= i < |templates| ==>
                  render(ContextOf(cycle, steps[s]), TargetKey(steps[s].member, templates[i])) in m)
            && (forall k :: k in m ==>
                  exists s, i :: 0 <= s < |steps| && 0 <= i < |templates| &&
                    k == render(ContextOf(cycle, steps[s]), TargetKey(steps[s].member, templates[i])) &&
                    m[k] == render(ContextOf(cycle, steps[s]), address + "/" + templates[i]))
  {
    HpssManifestHasAll(address, steps, templates, render, cycle);
    forall k | k in HpssManifest(address, steps, templates, render, cycle)
      ensures var m := HpssManifest(address, steps, templates, render, cycle);
              exists s, i :: 0 <= s < |steps| && 0 <= i < |templates| &&
                k == render(ContextOf(cycle, steps[s]), TargetKey(steps[s].member, templates[i])) &&
                m[k] == render(ContextOf(cycle, steps[s]), address + "/" + templates[i])
    {
      HpssManifestEntry(address, steps, templates, render, cycle, k);
    }
  }

  lemma {:induction false} HpssManifestHasAll(address: string, steps: seq<Step>, templates: seq<string>,
                                              render: Render, cycle: int)
    ensures forall s, i :: 0 <= s < |steps| && 0 <= i < |templates| ==>
              render(ContextOf(cycle, steps[s]), TargetKey(steps[s].member, templates[i]))
                in HpssManifest(address, steps, templates, render, cycle)
  {
    var blocks := StepEntryBlocks(address, steps, templates, render, cycle);
    var entries := HpssEntries(address, steps, templates, render, cycle);
    forall s, i | 0 <= s < |steps| && 0 <= i < |templates|
      ensures render(ContextOf(cycle, steps[s]), TargetKey(steps[s].member, templates[i]))
                in HpssManifest(address, steps, templates, render, cycle)
    {
      FlattenHas(blocks, s, i);
      EntryOf(blocks[s][i], entries);
    }
  }

  lemma {:induction false} HpssManifestEntry(address: string, steps: seq<Step>, templates: seq<string>,
                                             render: Render, cycle: int, k: string)
    requires k in HpssManifest(address, steps, templates, render, cycle)
    ensures var m := HpssManifest(address, steps, templates, render, cycle);
            exists s, i :: 0 <= s < |steps| && 0 <= i < |templates| &&
              k == render(ContextOf(cycle, steps[s]), TargetKey(steps[s].member, templates[i])) &&
              m[k] == render(ContextOf(cycle, steps[s]), address + "/" + templates[i])
  {
    var blocks := StepEntryBlocks(address, steps, templates, render, cycle);
    var entries := HpssEntries(address, steps, templates, render, cycle);
    UpdateWitness(map[], entries, k);
    var j :| 0 <= j < |entries| && entries[j] == (k, Update(map[], entries)[k]);
    FlattenMember(blocks, entries[j]);
    var s, i :| 0 <= s < |blocks| && 0 <= i < |blocks[s]| && blocks[s][i] == entries[j];
  }

  /** The archive manifests in loop order: location, then internal directory, then
      archive name. */
  function HpssManifests(locations: seq<Location>, dirs: seq<string>, names: seq<string>,
                         steps: seq<Step>, templates: seq<string>, render: Render, cycle: int): seq<Manifest>
  {
    Flatten(LocationBlocks(locations, dirs, names, steps, templates, render, cycle))
  }

  function LocationBlocks(locations: seq<Location>, dirs: seq<string>, names: seq<string>,
                          steps: seq<Step>, templates: seq<string>, render: Render, cycle: int): (b: seq<seq<Manifest>>)
    ensures |b| == |locations|
    ensures forall a :: 0 <= a < |b| ==> b[a] == Flatten(DirBlocks(locations[a], dirs, names, steps, templates, render, cycle))
  {
    seq(|locations|, a requires 0 <= a < |locations| =>
      Flatten(DirBlocks(locations[a], dirs, names, steps, templates, render, cycle)))
  }

  function DirBlocks(loc: Location, dirs: seq<string>, names: seq<string>,
                     steps: seq<Step>, templates: seq<string>, render: Render, cycle: int): (b: seq<seq<Manifest>>)
    ensures |b| == |dirs|
    ensures forall d :: 0 <= d < |b| ==> |b[d]| == |names|
    ensures forall d, n :: 0 <= d < |b| && 0 <= n < |names| ==>
              b[d][n] == HpssManifest(HtarAddress(loc, names[n], dirs[d]), steps, templates, render, cycle)
  {
    seq(|dirs|, d requires 0 <= d < |dirs| =>
      seq(|names|, n requires 0 <= n < |names| =>
        HpssManifest(HtarAddress(loc, names[n], dirs[d]), steps, templates, render, cycle)))
  }

  /** There is one archive manifest per location, directory and name, and the one for
      location `a`, directory `d` and name `n` comes after `a` whole locations, then `d`
      whole directories, then `n` names. */
  lemma {:induction false} HpssOrder(locations: seq<Location>, dirs: seq<string>, names: seq<string>,
                                     steps: seq<Step>, templates: seq<string>, render: Render, cycle: int,
                                     a: nat, d: nat, n: nat)
    requires a < |locations| && d < |dirs| && n < |names|
    ensures var ms := HpssManifests(locations, dirs, names, steps, templates, render, cycle);
            && |ms| == |locations| * (|dirs| * |names|)
            && a * (|dirs| * |names|) + d * |names| + n < |ms|
            && ms[a * (|dirs| * |names|) + d * |names| + n] ==
                 HpssManifest(HtarAddress(locations[a], names[n], dirs[d]), steps, templates, render, cycle)
  {
    var blocks := LocationBlocks(locations, dirs, names, steps, templates, render, cycle);
    var w := |dirs| * |names|;
    forall l | 0 <= l < |locations| ensures |blocks[l]| == w {
      FlattenLength(DirBlocks(locations[l], dirs, names, steps, templates, render, cycle), |names|);
    }
    FlattenLength(blocks, w);
    FlattenIndexNested(blocks, DirBlocks(locations[a], dirs, names, steps, templates, render, cycle), a, d, n, |names|);
  }

  /** The archive generator. The internal directories are read once the first location
      is reached, so a missing list raises before anything is yielded, and only when
      there is a location. */
  function PossibleHpssConfigs(locations: seq<Location>, dirs: Option<seq<string>>, names: seq<string>,
                               members: seq<int>, leadTimes: seq<int>, templates: seq<string>,
                               render: Render, cycle: int): (g: Gen)
    ensures g.raised.Some? <==> |locations| > 0 && dirs.None?
    ensures g.raised.Some? ==> g.manifests == [] && g.raised.value == KeyError("archive_internal_dirs")
  {
    if |locations| > 0 && dirs.None? then Gen([], Some(KeyError("archive_internal_dirs")))
    else
      var ds := if dirs.Some? then dirs.value else [];
      Gen(HpssManifests(locations, ds, names, Steps(members, leadTimes), templates, render, cycle), None)
  }
}
