/**
  The part of the scene-import library's data structures that the mesh loader reads
  (aiScene, aiNode, aiMesh, aiFace). The library itself is foreign: a scene is only
  ever received from it, never built by the loader.
 */
module Assimp {
  import opened Wrappers

  /** C++ `unsigned int`, the type of every count and index in the imported scene. */
  newtype uint32 = x: int | 0 <= x < 0x1_0000_0000

  /** A single-precision float, kept as its bit pattern: the loader only copies floats. */
  datatype Float = Float(bits: bv32)

  /** The bit pattern of 0.0f. */
  const Zero: Float := Float(0)

  /** aiVector3D */
  datatype AiVector3 = AiVector3(x: Float, y: Float, z: Float)

  /** aiFace: `mIndices`, with `mNumIndices == |indices|`. */
  datatype AiFace = AiFace(indices: seq<uint32>)

  /**
    aiMesh, with `mNumVertices == |vertices|` and `mNumFaces == |faces|`.
    A per-vertex array that the library left null is an empty sequence here, except
    texture channel 0, whose nullness the loader tests.
   */
  datatype AiMesh = AiMesh(
    vertices: seq<AiVector3>,
    normals: seq<AiVector3>,
    textureCoords0: Option<seq<AiVector3>>,
    tangents: seq<AiVector3>,
    bitangents: seq<AiVector3>,
    faces: seq<AiFace>)

  /** aiNode: `mMeshes` are indices into the scene's mesh array. */
  datatype AiNode = AiNode(meshes: seq<uint32>, children: seq<AiNode>)

  /** aiScene: `mFlags`, the optional `mRootNode` and `mMeshes`. */
  datatype AiScene = AiScene(flags: bv32, rootNode: Option<AiNode>, meshes: seq<AiMesh>)

  /** AI_SCENE_FLAGS_INCOMPLETE */
  const SCENE_FLAGS_INCOMPLETE: bv32 := 0x1

  /**
    What processMesh reads of a mesh without checking: normals, tangents and
    bitangents (and texture channel 0 when present) for every vertex, and three
    indices in every face. Nothing relates face indices to the vertex count.
   */
  predicate Readable(m: AiMesh) {
    && |m.normals| >= |m.vertices|
    && |m.tangents| >= |m.vertices|
    && |m.bitangents| >= |m.vertices|
    && (m.textureCoords0.Some? ==> |m.textureCoords0.value| >= |m.vertices|)
    && forall f :: 0 <= f < |m.faces| ==> |m.faces[f].indices| >= 3
  }
}
