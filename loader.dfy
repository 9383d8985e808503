/**
  Mesh::loadConst: a process-wide cache from file name to loaded mesh, in front of a
  resolver that tries each search-path prefix in order until the importer returns an
  acceptable scene.
 */
module Loader {
  import opened Wrappers
  import opened Assimp
  import opened Render

  /**
    The importer, as seen by the loader: a file path to the scene it reads, or None
    where ReadFile returns null. Post-processing options are fixed and part of it.
   */
  type Importer = string -> Option<AiScene>

  /** The path tried for one prefix. */
  function Candidate(prefix: string, fname: string): string {
    prefix + "/" + fname
  }

  /** The paths tried for each of `prefixes`, in order. */
  function Candidates(prefixes: seq<string>, fname: string): seq<string> {
    seq(|prefixes|, i requires 0 <= i < |prefixes| => Candidate(prefixes[i], fname))
  }

  /** The import succeeded: a scene, without the incomplete flag, with a root node. */
  predicate Accepted(scene: Option<AiScene>) {
    && scene.Some?
    && scene.value.flags & SCENE_FLAGS_INCOMPLETE == 0
    && scene.value.rootNode.Some?
  }

  /** The first prefix, at `from` or later, whose candidate path the importer accepts. */
  function FirstAccepted(paths: seq<string>, fname: string, read: Importer, from: nat): (r: Option<nat>)
    requires from <= |paths|
    ensures r.Some? ==>
      && from <= r.value < |paths|
      && Accepted(read(Candidate(paths[r.value], fname)))
      && forall j :: from <= j < r.value ==> !Accepted(read(Candidate(paths[j], fname)))
    ensures r.None? ==>
      forall j :: from <= j < |paths| ==> !Accepted(read(Candidate(paths[j], fname)))
    decreases |paths| - from
  {
    if from == |paths| then None
    else if Accepted(read(Candidate(paths[from], fname))) then Some(from)
    else FirstAccepted(paths, fname, read, from + 1)
  }

  /** The prefix the resolver settles on, if any. */
  function Resolve(paths: seq<string>, fname: string, read: Importer): Option<nat> {
    FirstAccepted(paths, fname, read, 0)
  }

  /**
    What the code takes for granted of the scene it settles on: every mesh index in
    its tree is in range and names a readable mesh, and the tree names at least one
    mesh, so that `meshes[0]` exists.
   */
  predicate Usable(scene: AiScene) {
    && scene.rootNode.Some?
    && ReferencesReadable(scene.rootNode.value, scene)
    && MeshCount(scene.rootNode.value) > 0
  }

  /** Loading `fname` through `paths` on a miss meets the code's unchecked assumptions. */
  predicate ResolvesUsably(paths: seq<string>, fname: string, read: Importer) {
    match Resolve(paths, fname, read)
    case None => true
    case Some(k) => Usable(read(Candidate(paths[k], fname)).value)
  }

  /** The mesh the loader keeps from a usable scene: the first one processNode produces. */
  function FirstMesh(scene: AiScene): (m: AiMesh)
    requires Usable(scene)
    ensures Readable(m)
  {
    CollectLength(scene.rootNode.value);
    var idx := Collect(scene.rootNode.value);
    assert idx[0] in idx;
    FirstReferenced(scene.rootNode.value, scene, 0);
    scene.meshes[idx[0]]
  }

  /** Every index that processNode collects is in range and readable. */
  lemma {:induction false} FirstReferenced(node: AiNode, scene: AiScene, k: nat)
    requires ReferencesReadable(node, scene) && k < |Collect(node)|
    ensures Collect(node)[k] as int < |scene.meshes| && Readable(scene.meshes[Collect(node)[k]])
    decreases node, 1
  {
    if k >= |node.meshes| {
      AllReferenced(node.children, scene, k - |node.meshes|);
    }
  }

  lemma {:induction false} AllReferenced(nodes: seq<AiNode>, scene: AiScene, k: nat)
    requires forall c :: 0 <= c < |nodes| ==> ReferencesReadable(nodes[c], scene)
    requires k < |CollectAll(nodes)|
    ensures CollectAll(nodes)[k] as int < |scene.meshes| && Readable(scene.meshes[CollectAll(nodes)[k]])
    decreases nodes, 0
  {
    var init := nodes[..|nodes| - 1];
    if k < |CollectAll(init)| {
      AllReferenced(init, scene, k);
    } else {
      FirstReferenced(nodes[|nodes| - 1], scene, k - |CollectAll(init)|);
    }
  }

  class MeshLoader {
    /** Mesh::cache: file name to the mesh loaded for it. */
    var cache: map<string, Mesh>
    /** The search-path prefixes, in the order they are tried. */
    var paths: seq<string>
    /** Every path handed to the importer so far, in order. */
    ghost var attempts: seq<string>

    /** The cache starts empty. */
    constructor (paths: seq<string>)
      ensures this.paths == paths && cache == map[] && attempts == []
    {
      this.paths := paths;
      cache := map[];
      attempts := [];
    }

    /**
      Mesh::loadConst. A hit returns the cached mesh and imports nothing. A miss tries
      each prefix in order; the first accepted scene yields a new mesh, transcribed
      from the first mesh its tree names, which is cached under `fname`. If no prefix
      is accepted the result is null and nothing is cached.
     */
    method LoadConst(fname: string, read: Importer) returns (r: Mesh?)
      requires fname !in cache ==> ResolvesUsably(paths, fname, read)
      modifies this`cache, this`attempts
      ensures fname in old(cache) ==>
        r == old(cache)[fname] && cache == old(cache) && attempts == old(attempts)
      ensures fname !in old(cache) && Resolve(paths, fname, read).None? ==>
        && r == null
        && cache == old(cache)
        && attempts == old(attempts) + Candidates(paths, fname)
      ensures fname !in old(cache) && Resolve(paths, fname, read).Some? ==>
        var k := Resolve(paths, fname, read).value;
        && r != null && fresh(r)
        && cache == old(cache)[fname := r]
        && Transcribes(FirstMesh(read(Candidate(paths[k], fname)).value), r)
        && attempts == old(attempts) + Candidates(paths[..k + 1], fname)
    {
      if fname in cache {
        r := cache[fname];
        return;
      }
      for i := 0 to |paths|
        invariant cache == old(cache)
        invariant attempts == old(attempts) + Candidates(paths[..i], fname)
        invariant Resolve(paths, fname, read) == FirstAccepted(paths, fname, read, i)
      {
        var newpath := paths[i] + "/" + fname;
        var scene := read(newpath);
        attempts := attempts + [newpath];
        assert Candidates(paths[..i + 1], fname) == Candidates(paths[..i], fname) + [newpath];
        if scene.None? || scene.value.flags & SCENE_FLAGS_INCOMPLETE != 0 || scene.value.rootNode.None? {
          continue;
        }
        var meshes := ProcessNode([], scene.value.rootNode.value, scene.value);
        CollectLength(scene.value.rootNode.value);
        // only the first mesh is kept; the others are not retained
        r := meshes[0];
        cache := cache[fname := r];
        return;
      }
      assert paths[..|paths|] == paths;
      r := null;
    }
  }

  /**
    Two loads of the same name. After a success the second load returns the same
    mesh and imports nothing; after a failure it tries every prefix again.
   */
  method LoadTwice(loader: MeshLoader, fname: string, read: Importer) returns (first: Mesh?, second: Mesh?)
    requires fname !in loader.cache ==> ResolvesUsably(loader.paths, fname, read)
    modifies loader
    ensures loader.paths == old(loader.paths)
    ensures first != null && fname !in old(loader.cache) ==> Resolve(loader.paths, fname, read).Some?
    ensures first != null ==> second == first && loader.cache == old(loader.cache)[fname := first]
    ensures first != null ==>
      loader.attempts == old(loader.attempts) +
        if fname in old(loader.cache) then []
        else Candidates(loader.paths[..Resolve(loader.paths, fname, read).value + 1], fname)
    ensures first == null ==>
      && second == null
      && loader.cache == old(loader.cache)
      && loader.attempts == old(loader.attempts) + Candidates(loader.paths, fname) + Candidates(loader.paths, fname)
  {
    first := loader.LoadConst(fname, read);
    second := loader.LoadConst(fname, read);
  }
}
