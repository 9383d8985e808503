/**
  The engine's own mesh representation and the adapter that transcribes an imported
  scene into it: processMesh (one sub-mesh) and processNode (a pre-order walk of the
  scene's node tree). GPU buffer handles are not modelled.
 */
module Render {
  import opened Wrappers
  import opened Assimp

  /** glm::vec2 and glm::vec3 */
  datatype Vec2 = Vec2(x: Float, y: Float)
  datatype Vec3 = Vec3(x: Float, y: Float, z: Float)

  /** One vertex: position, texture coordinate, tangent, bitangent and normal. */
  datatype Vertex = Vertex(pos: Vec3, uv: Vec2, t: Vec3, b: Vec3, n: Vec3)

  /** One triangle: three indices into the vertex list. */
  datatype Face = Face(a: uint32, b: uint32, c: uint32)

  /**
    A loaded mesh. Its geometry never changes after construction, so the two lists
    are constants; the object's identity is what the loader's cache hands out.
   */
  class Mesh {
    const vertices: seq<Vertex>
    const faces: seq<Face>

    /** Mesh::Mesh: store both lists unchanged (the GPU upload is not modelled). */
    constructor (vertices: seq<Vertex>, faces: seq<Face>)
      ensures this.vertices == vertices && this.faces == faces
    {
      this.vertices := vertices;
      this.faces := faces;
    }
  }

  /**
    The element buffer the constructor hands to the GPU: the faces laid out one after
    another, three indices each.
   */
  function ElementIndices(faces: seq<Face>): (r: seq<uint32>)
    ensures |r| == 3 * |faces|
    ensures forall i :: 0 <= i < |faces| ==>
      r[3 * i] == faces[i].a && r[3 * i + 1] == faces[i].b && r[3 * i + 2] == faces[i].c
  {
    if faces == [] then []
    else
      var last := faces[|faces| - 1];
      ElementIndices(faces[..|faces| - 1]) + [last.a, last.b, last.c]
  }

  function ToVec3(v: AiVector3): Vec3 {
    Vec3(v.x, v.y, v.z)
  }

  /** Vertex i of `m` as processMesh builds it; the UV is (0,0) without texture channel 0. */
  predicate VertexTranscribed(m: AiMesh, i: nat, v: Vertex)
    requires Readable(m) && i < |m.vertices|
  {
    && v.pos == ToVec3(m.vertices[i])
    && v.n == ToVec3(m.normals[i])
    && v.uv == (match m.textureCoords0
                case Some(uvs) => Vec2(uvs[i].x, uvs[i].y)
                case None => Vec2(Zero, Zero))
    && v.t == ToVec3(m.tangents[i])
    && v.b == ToVec3(m.bitangents[i])
  }

  /** Face i of the engine mesh is the first three indices of source face i. */
  predicate FaceTranscribed(f: AiFace, face: Face)
    requires |f.indices| >= 3
  {
    face == Face(f.indices[0], f.indices[1], f.indices[2])
  }

  /** `mesh` holds exactly one transcribed vertex per source vertex and one face per source face. */
  predicate Transcribes(m: AiMesh, mesh: Mesh)
    requires Readable(m)
  {
    && |mesh.vertices| == |m.vertices|
    && (forall i :: 0 <= i < |m.vertices| ==> VertexTranscribed(m, i, mesh.vertices[i]))
    && |mesh.faces| == |m.faces|
    && (forall i :: 0 <= i < |m.faces| ==> FaceTranscribed(m.faces[i], mesh.faces[i]))
  }

  /** The vertex loop of processMesh. */
  method TranscribeVertices(m: AiMesh) returns (vertices: seq<Vertex>)
    requires Readable(m)
    ensures |vertices| == |m.vertices|
    ensures forall i :: 0 <= i < |m.vertices| ==> VertexTranscribed(m, i, vertices[i])
  {
    vertices := [];
    for i := 0 to |m.vertices|
      invariant |vertices| == i
      invariant forall j :: 0 <= j < i ==> VertexTranscribed(m, j, vertices[j])
    {
      var pos := Vec3(m.vertices[i].x, m.vertices[i].y, m.vertices[i].z);
      var n := Vec3(m.normals[i].x, m.normals[i].y, m.normals[i].z);
      var uv: Vec2;
      if m.textureCoords0.Some? {
        uv := Vec2(m.textureCoords0.value[i].x, m.textureCoords0.value[i].y);
      } else {
        uv := Vec2(Zero, Zero);
      }
      var t := Vec3(m.tangents[i].x, m.tangents[i].y, m.tangents[i].z);
      var b := Vec3(m.bitangents[i].x, m.bitangents[i].y, m.bitangents[i].z);
      vertices := vertices + [Vertex(pos, uv, t, b, n)];
    }
  }

  /** The face loop of processMesh. */
  method TranscribeFaces(m: AiMesh) returns (faces: seq<Face>)
    requires Readable(m)
    ensures |faces| == |m.faces|
    ensures forall i :: 0 <= i < |m.faces| ==> FaceTranscribed(m.faces[i], faces[i])
  {
    faces := [];
    for i := 0 to |m.faces|
      invariant |faces| == i
      invariant forall j :: 0 <= j < i ==> FaceTranscribed(m.faces[j], faces[j])
    {
      var face := m.faces[i];
      faces := faces + [Face(face.indices[0], face.indices[1], face.indices[2])];
    }
  }

  /** processMesh: a new engine mesh transcribed from one imported sub-mesh. */
  method ProcessMesh(m: AiMesh) returns (mesh: Mesh)
    requires Readable(m)
    ensures fresh(mesh)
    ensures Transcribes(m, mesh)
  {
    var vertices := TranscribeVertices(m);
    var faces := TranscribeFaces(m);
    mesh := new Mesh(vertices, faces);
  }

  // ---------------------------------------------------------------------------
  // The node tree

  /** The scene-mesh indices processNode visits, in the order it visits them. */
  function Collect(node: AiNode): seq<uint32>
    decreases node, 1
  {
    node.meshes + CollectAll(node.children)
  }

  function CollectAll(nodes: seq<AiNode>): seq<uint32>
    decreases nodes, 0
  {
    if nodes == [] then []
    else CollectAll(nodes[..|nodes| - 1]) + Collect(nodes[|nodes| - 1])
  }

  /** The nodes of a tree in depth-first pre-order: a node, then each child's subtree in order. */
  function PreOrder(node: AiNode): seq<AiNode>
    decreases node, 1
  {
    [node] + PreOrderAll(node.children)
  }

  function PreOrderAll(nodes: seq<AiNode>): seq<AiNode>
    decreases nodes, 0
  {
    if nodes == [] then []
    else PreOrderAll(nodes[..|nodes| - 1]) + PreOrder(nodes[|nodes| - 1])
  }

  /** The mesh indices of a list of nodes, node by node. */
  function OwnMeshes(nodes: seq<AiNode>): seq<uint32> {
    if nodes == [] then [] else OwnMeshes(nodes[..|nodes| - 1]) + nodes[|nodes| - 1].meshes
  }

  /** The sum of `mNumMeshes` over a tree. */
  function MeshCount(node: AiNode): nat
    decreases node, 1
  {
    |node.meshes| + MeshCountAll(node.children)
  }

  function MeshCountAll(nodes: seq<AiNode>): nat
    decreases nodes, 0
  {
    if nodes == [] then 0 else MeshCountAll(nodes[..|nodes| - 1]) + MeshCount(nodes[|nodes| - 1])
  }

  /**
    What processNode reads without checking: every mesh index of every node in the
    tree is within the scene's mesh array, and the mesh it names is readable.
   */
  predicate ReferencesReadable(node: AiNode, scene: AiScene) {
    && (forall j :: 0 <= j < |node.meshes| ==>
          node.meshes[j] as int < |scene.meshes| && Readable(scene.meshes[node.meshes[j]]))
    && (forall c :: 0 <= c < |node.children| ==> ReferencesReadable(node.children[c], scene))
  }

  /** `after` is `before` followed by one transcribed mesh per index of `idx`, in order. */
  predicate Appended(scene: AiScene, idx: seq<uint32>, before: seq<Mesh>, after: seq<Mesh>) {
    && |after| == |before| + |idx|
    && after[..|before|] == before
    && forall k :: 0 <= k < |idx| ==>
         && idx[k] as int < |scene.meshes|
         && Readable(scene.meshes[idx[k]])
         && Transcribes(scene.meshes[idx[k]], after[|before| + k])
  }

  lemma AppendedTrans(scene: AiScene, a: seq<uint32>, b: seq<uint32>, x: seq<Mesh>, y: seq<Mesh>, z: seq<Mesh>)
    requires Appended(scene, a, x, y) && Appended(scene, b, y, z)
    ensures Appended(scene, a + b, x, z)
  {
  }

  /**
    processNode: append to `meshes` one new mesh per mesh index of `node`, then the
    meshes of each child's subtree, left to right.
   */
  method ProcessNode(meshes: seq<Mesh>, node: AiNode, scene: AiScene) returns (out: seq<Mesh>)
    requires ReferencesReadable(node, scene)
    ensures Appended(scene, Collect(node), meshes, out)
    ensures forall k :: |meshes| <= k < |out| ==> fresh(out[k])
    decreases node
  {
    out := meshes;
    for i := 0 to |node.meshes|
      invariant Appended(scene, node.meshes[..i], meshes, out)
      invariant forall k :: |meshes| <= k < |out| ==> fresh(out[k])
    {
      var mesh := ProcessMesh(scene.meshes[node.meshes[i]]);
      ghost var prev := out;
      out := out + [mesh];
      AppendedTrans(scene, node.meshes[..i], [node.meshes[i]], meshes, prev, out);
      assert node.meshes[..i] + [node.meshes[i]] == node.meshes[..i + 1];
    }
    assert node.meshes[..|node.meshes|] == node.meshes;
    assert node.meshes + CollectAll(node.children[..0]) == node.meshes;
    for i := 0 to |node.children|
      invariant Appended(scene, node.meshes + CollectAll(node.children[..i]), meshes, out)
      invariant forall k :: |meshes| <= k < |out| ==> fresh(out[k])
    {
      ghost var prev := out;
      out := ProcessNode(out, node.children[i], scene);
      AppendedTrans(scene, node.meshes + CollectAll(node.children[..i]), Collect(node.children[i]),
                    meshes, prev, out);
      assert node.children[..i + 1][..i] == node.children[..i];
      assert CollectAll(node.children[..i + 1])
          == CollectAll(node.children[..i]) + Collect(node.children[i]);
      assert node.meshes + CollectAll(node.children[..i + 1])
          == (node.meshes + CollectAll(node.children[..i])) + Collect(node.children[i]);
    }
    assert node.children[..|node.children|] == node.children;
  }

  // ---------------------------------------------------------------------------
  // Properties of the walk

  lemma OwnMeshesConcat(a: seq<AiNode>, b: seq<AiNode>)
    ensures OwnMeshes(a + b) == OwnMeshes(a) + OwnMeshes(b)
    decreases |b|
  {
    if b == [] {
      assert a + b == a;
    } else {
      assert (a + b)[..|a + b| - 1] == a + b[..|b| - 1];
      OwnMeshesConcat(a, b[..|b| - 1]);
    }
  }

  /** processNode visits the nodes of the tree in pre-order, taking each node's meshes in index order. */
  lemma {:induction false} CollectIsPreOrder(node: AiNode)
    ensures Collect(node) == OwnMeshes(PreOrder(node))
    decreases node, 1
  {
    CollectAllIsPreOrder(node.children);
    OwnMeshesConcat([node], PreOrderAll(node.children));
    assert OwnMeshes([node]) == node.meshes by {
      assert [node][..0] == [];
    }
  }

  lemma {:induction false} CollectAllIsPreOrder(nodes: seq<AiNode>)
    ensures CollectAll(nodes) == OwnMeshes(PreOrderAll(nodes))
    decreases nodes, 0
  {
    if nodes != [] {
      CollectAllIsPreOrder(nodes[..|nodes| - 1]);
      CollectIsPreOrder(nodes[|nodes| - 1]);
      OwnMeshesConcat(PreOrderAll(nodes[..|nodes| - 1]), PreOrder(nodes[|nodes| - 1]));
    }
  }

  /** processNode produces one mesh per mesh index in the tree: the sum of `mNumMeshes`. */
  lemma {:induction false} CollectLength(node: AiNode)
    ensures |Collect(node)| == MeshCount(node)
    decreases node, 1
  {
    CollectAllLength(node.children);
  }

  lemma {:induction false} CollectAllLength(nodes: seq<AiNode>)
    ensures |CollectAll(nodes)| == MeshCountAll(nodes)
    decreases nodes, 0
  {
    if nodes != [] {
      CollectAllLength(nodes[..|nodes| - 1]);
      CollectLength(nodes[|nodes| - 1]);
    }
  }
}
