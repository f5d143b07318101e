/** Schema alias pruning (common/schema_hooks.py, drop_trailing_slash_aliases). The path
    map gives each path its operations by HTTP method. */
module SchemaAliases {

  type Paths = map<string, map<string, string>>

  predicate EndsWithSlash(path: string) {
    path != "" && path[|path| - 1] == '/'
  }

  function Twin(path: string): string {
    path + "/"
  }

  /** A no-slash path whose slash twin documents the same methods. */
  predicate IsAlias(paths: Paths, path: string) {
    && path in paths
    && !EndsWithSlash(path)
    && Twin(path) in paths
    && paths[Twin(path)].Keys == paths[path].Keys
  }

  function Pruned(paths: Paths): Paths {
    map p | p in paths && !IsAlias(paths, p) :: paths[p]
  }

  class Schema {
    var paths: Paths

    constructor (paths: Paths)
      ensures this.paths == paths
    {
      this.paths := paths;
    }

    /** `order` is the iteration order of the dictionary, any listing of its keys. */
    method DropTrailingSlashAliases(order: seq<string>) returns (dropped: seq<string>)
      requires forall p :: p in order <==> p in paths
      requires forall i, j :: 0 <= i < j < |order| ==> order[i] != order[j]
      modifies this
      ensures paths == Pruned(old(paths))
      ensures forall p :: p in dropped <==> IsAlias(old(paths), p)
      ensures forall i, j :: 0 <= i < j < |dropped| ==> dropped[i] != dropped[j]
    {
      dropped := [];
      var i := 0;
      while i < |order|
        invariant 0 <= i <= |order|
        invariant forall p :: p in dropped <==> p in order[..i] && IsAlias(old(paths), p)
        invariant forall j, k :: 0 <= j < k < |dropped| ==> dropped[j] != dropped[k]
        invariant paths == map p | p in old(paths) && p !in dropped :: old(paths)[p]
      {
        var path := order[i];
        assert order[..i + 1] == order[..i] + [path];
        assert path !in order[..i];
        if !EndsWithSlash(path) {
          var twin := Twin(path);
          assert EndsWithSlash(twin) && twin !in dropped;
          if twin in paths && paths[twin].Keys == paths[path].Keys {
            dropped := dropped + [path];
            paths := map p | p in paths && p != path :: paths[p];
          }
        }
        i := i + 1;
      }
      assert order[..i] == order;
    }
  }

  // ---------- consequences ----------

  /** Every dropped path leaves its twin behind, with the same methods. */
  lemma TwinSurvives(paths: Paths, path: string)
    requires IsAlias(paths, path)
    ensures Twin(path) in Pruned(paths) && path !in Pruned(paths)
    ensures Pruned(paths)[Twin(path)].Keys == paths[path].Keys
  {
    assert EndsWithSlash(Twin(path));
  }

  function WithoutSlash(path: string): string {
    if EndsWithSlash(path) then path[..|path| - 1] else path
  }

  /** Some spelling of a path, with or without its last slash, documents the method. */
  ghost predicate Documents(paths: Paths, endpoint: string, verb: string) {
    exists p :: p in paths && WithoutSlash(p) == endpoint && verb in paths[p]
  }

  /** No operation loses its last representative, and none is gained. */
  lemma NoOperationIsLost(paths: Paths, endpoint: string, verb: string)
    ensures Documents(Pruned(paths), endpoint, verb) <==> Documents(paths, endpoint, verb)
  {
    if Documents(paths, endpoint, verb) {
      var p :| p in paths && WithoutSlash(p) == endpoint && verb in paths[p];
      if IsAlias(paths, p) {
        TwinSurvives(paths, p);
        assert WithoutSlash(Twin(p)) == p;
        assert verb in Pruned(paths)[Twin(p)].Keys;
      } else {
        assert p in Pruned(paths);
      }
    }
    if Documents(Pruned(paths), endpoint, verb) {
      var p :| p in Pruned(paths) && WithoutSlash(p) == endpoint && verb in Pruned(paths)[p];
      assert p in paths;
    }
  }

  /** After pruning no endpoint has two spellings documenting the same methods, so a
      second pass changes nothing. */
  lemma PruningTwiceIsOnce(paths: Paths)
    ensures Pruned(Pruned(paths)) == Pruned(paths)
    ensures forall p :: !IsAlias(Pruned(paths), p)
  {}

  /** A path is kept unless it has no trailing slash and its twin documents the very same
      methods. */
  lemma KeptExactly(paths: Paths, path: string)
    ensures path in Pruned(paths) <==>
      path in paths && (
        || (path != "" && path[|path| - 1] == '/')
        || path + "/" !in paths
        || exists verb :: (verb in paths[path]) != (verb in paths[path + "/"]))
    ensures path in Pruned(paths) ==> Pruned(paths)[path] == paths[path]
  {
    if path in paths && path + "/" in paths {
      var a, b := paths[path].Keys, paths[path + "/"].Keys;
      if a != b {
        var verb :| (verb in a) != (verb in b);
        assert (verb in paths[path]) != (verb in paths[path + "/"]);
      }
    }
  }
}
