/** Navigating a nested configuration by a path of keys, as the post-processing scripts
    do to reach the block that configures them.
 */
module Utils {
  import opened Results

  /** A configuration value: a dict of further values, or anything else. */
  datatype Node = Leaf(text: string) | Dict(entries: map<string, Node>)

  /** `" -> ".join(keys)`, the path as error messages show it. */
  function PathText(keys: seq<string>): string
    decreases |keys|
  {
    if |keys| == 0 then ""
    else if |keys| == 1 then keys[0]
    else keys[0] + " -> " + PathText(keys[1..])
  }

  function NotADict(keys: seq<string>): string
  {
    "Value at " + PathText(keys) + " must be a dictionary"
  }

  /** The walk after the keys `done` have been followed: a missing key raises `KeyError`
      and a value that is not a dict ends the program with status 1. */
  function WalkFrom(config: map<string, Node>, done: seq<string>, rest: seq<string>): (r: Result<map<string, Node>>)
    ensures r.Failure? ==>
              (r.error.KeyError? && r.error.key in rest) ||
              (r.error.Exit? && r.error.code == 1)
    decreases |rest|
  {
    if |rest| == 0 then Success(config)
    else
      var key := rest[0];
      if key !in config then Failure(KeyError(key))
      else
        match config[key]
        case Leaf(_) => Failure(Exit(1, NotADict(done + [key])))
        case Dict(sub) =>
          var r := WalkFrom(sub, done + [key], rest[1..]);
          assert forall k :: k in rest[1..] ==> k in rest;
          r
  }

  /** `walk_key_path(config, key_path)`; an empty path gives `config` itself. */
  function WalkKeyPath(config: map<string, Node>, keyPath: seq<string>): (r: Result<map<string, Node>>)
    ensures |keyPath| == 0 ==> r == Success(config)
  {
    WalkFrom(config, [], keyPath)
  }

  /** Plain indexing along a path, with no check on the kind of value reached. */
  function Lookup(n: Node, path: seq<string>): (r: Option<Node>)
    decreases |path|
  {
    if |path| == 0 then Some(n)
    else if n.Dict? && path[0] in n.entries then Lookup(n.entries[path[0]], path[1..])
    else None
  }

  /** Every value met along the path, the last one included, is a dict. */
  predicate DictsAlong(n: Node, path: seq<string>)
    decreases |path|
  {
    n.Dict? && (|path| > 0 ==> path[0] in n.entries && DictsAlong(n.entries[path[0]], path[1..]))
  }

  /** The walk succeeds exactly when every value along the path is a dict, and then it
      gives the value that indexing with each key in turn reaches. */
  lemma {:induction false} WalkIsLookup(config: map<string, Node>, done: seq<string>, path: seq<string>)
    ensures WalkFrom(config, done, path).Success? <==> DictsAlong(Dict(config), path)
    ensures WalkFrom(config, done, path).Success? ==>
              Lookup(Dict(config), path) == Some(Dict(WalkFrom(config, done, path).value))
    decreases |path|
  {
    if |path| > 0 && path[0] in config && config[path[0]].Dict? {
      WalkIsLookup(config[path[0]].entries, done + [path[0]], path[1..]);
    }
  }

  /** Where the walk stops: at the first key `path[i]` that is missing, with `KeyError`,
      or whose value is not a dict, with exit status 1 and the path up to it. */
  lemma {:induction false} WalkStops(config: map<string, Node>, path: seq<string>, i: int)
    requires 0 <= i < |path| && DictsAlong(Dict(config), path[..i])
    requires !DictsAlong(Dict(config), path[..i + 1])
    ensures var n := Lookup(Dict(config), path[..i]);
            && n.Some? && n.value.Dict?
            && WalkKeyPath(config, path) ==
                 if path[i] !in n.value.entries then Failure(KeyError(path[i]))
                 else Failure(Exit(1, NotADict(path[..i + 1])))
  {
    WalkStopsFrom(config, [], path, i);
    assert [] + path[..i + 1] == path[..i + 1];
  }

  lemma {:induction false} WalkStopsFrom(config: map<string, Node>, done: seq<string>, path: seq<string>, i: int)
    requires 0 <= i < |path| && DictsAlong(Dict(config), path[..i])
    requires !DictsAlong(Dict(config), path[..i + 1])
    ensures var n := Lookup(Dict(config), path[..i]);
            && n.Some? && n.value.Dict?
            && WalkFrom(config, done, path) ==
                 if path[i] !in n.value.entries then Failure(KeyError(path[i]))
                 else Failure(Exit(1, NotADict(done + path[..i + 1])))
    decreases i
  {
    if i == 0 {
      assert path[..1] == [path[0]];
      assert path[..1][1..] == [];
    } else {
      var sub := config[path[0]].entries;
      assert path[..i][0] == path[0] && path[..i][1..] == path[1..][..i - 1];
      assert path[..i + 1][0] == path[0] && path[..i + 1][1..] == path[1..][..i];
      WalkStopsFrom(sub, done + [path[0]], path[1..], i - 1);
      assert done + [path[0]] + path[1..][..i] == done + path[..i + 1];
    }
  }

  /** Walking `p + q` is walking `p` and then walking `q` from where `p` ends, with the
      same errors and messages. */
  lemma {:induction false} WalkAppend(config: map<string, Node>, done: seq<string>, p: seq<string>, q: seq<string>)
    ensures WalkFrom(config, done, p + q) ==
              match WalkFrom(config, done, p)
              case Failure(e) => Failure(e)
              case Success(m) => WalkFrom(m, done + p, q)
    decreases |p|
  {
    if |p| == 0 {
      assert p + q == q && done + p == done;
    } else {
      assert (p + q)[0] == p[0] && (p + q)[1..] == p[1..] + q;
      if p[0] in config && config[p[0]].Dict? {
        WalkAppend(config[p[0]].entries, done + [p[0]], p[1..], q);
        assert done + [p[0]] + p[1..] == done + p;
      }
    }
  }
}
