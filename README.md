# Blok mesh loader, modelled in Dafny

This project models the memoising mesh loader of the Blok rendering engine
(`Blok/render/Mesh.cc`). It covers four pieces.

- `Mesh::loadConst` keeps a process-wide cache from file name to loaded mesh. On a miss it
  tries each search-path prefix in order, builds `prefix + "/" + fname`, and asks the
  scene importer for it. The first scene that is non-null, has the incomplete flag clear
  and has a root node is accepted.
- `processNode` walks the accepted scene's node tree depth-first in pre-order and makes one
  engine mesh per mesh index it meets.
- `processMesh` transcribes one imported sub-mesh into engine vertices and faces.
- The data part of the `Mesh` constructor stores both lists unchanged.

The first mesh of the walk is cached under `fname` and returned. Total failure returns null
and caches nothing.

Files and modules:

- `wrappers.dfy` (`Wrappers`): `Option`.
- `assimp.dfy` (`Assimp`): the importer's scene, node, mesh and face records, as far as the
  loader reads them. Floats are opaque bit patterns that are only copied. `AI_SCENE_FLAGS_INCOMPLETE`
  is the flag bit `0x1`.
- `render.dfy` (`Render`): `Vertex`, `Face`, the `Mesh` class, `processMesh` and `processNode`,
  and the pre-order specification of the walk.
- `loader.dfy` (`Loader`): the resolver's specification and the `MeshLoader` class that holds
  the cache.

The importer is a parameter: a function from path to an optional scene, where `None` stands
for a null result. A ghost field `attempts` records every path handed to the importer, so
that "tries no path" and "tries every path again" can be stated.

The code leaves several obligations unchecked. The model states them as preconditions.

- `Readable`: normals, tangents and bitangents (and texture channel 0 when present) exist
  for every vertex. Every face has at least three indices. The triangulate option does not
  turn point or line primitives into triangles.
- `ReferencesReadable`: every `node->mMeshes[i]` is below the scene's mesh count.
- `Usable`: the tree names at least one mesh, so `meshes[0]` exists.

Face indices are never checked against the vertex count. The model does not demand it
either: `Transcribes` copies them verbatim, so a mesh can hold a face that points past its
vertices.

## Model

| member | source | states |
|---|---|---|
| `Render.Mesh.constructor` | Blok/render/Mesh.cc:143-146 | the new mesh holds exactly the given vertex and face lists |
| `Render.ElementIndices` | Blok/render/Mesh.cc:164-165 | the index buffer has three entries per face; entries `3i`, `3i+1`, `3i+2` are the corners of face `i` |
| `Render.TranscribeVertices` | Blok/render/Mesh.cc:24-44 | one vertex per source vertex; position, normal, tangent and bitangent copied; UV taken from texture channel 0 when it exists and (0,0) otherwise |
| `Render.TranscribeFaces` | Blok/render/Mesh.cc:47-51 | one face per source face, made of that face's first three indices in order |
| `Render.ProcessMesh` | Blok/render/Mesh.cc:19-77 | a fresh mesh whose vertex and face lists are the transcription of the source mesh |
| `Render.ProcessNode` | Blok/render/Mesh.cc:81-91 | the output list is the input list followed by one fresh transcribed mesh per index of `Collect(node)`, in order |
| `Render.CollectIsPreOrder` | Blok/render/Mesh.cc:83-89 | the walk's mesh order is the concatenation of each node's own mesh indices, with nodes taken in depth-first pre-order |
| `Render.CollectLength` | Blok/render/Mesh.cc:83-89 | the walk produces as many meshes as the sum of `mNumMeshes` over the tree |
| `Loader.FirstReferenced` | Blok/render/Mesh.cc:83-85 | under the precondition, every index the walk collects is a valid, readable scene mesh |
| `Loader.FirstAccepted` | Blok/render/Mesh.cc:103-114 | the chosen prefix is the first one whose candidate `prefix + "/" + fname` yields a non-null scene with the incomplete flag clear and a root node; every earlier prefix failed that test; None means every prefix failed, including when there are none |
| `Loader.FirstMesh` | Blok/render/Mesh.cc:117-128 | the mesh that is kept is element 0 of the walk's list, and it is readable |
| `Loader.MeshLoader.constructor` | Blok/render/Mesh.cc:15 | the cache starts empty |
| `Loader.MeshLoader.LoadConst` | Blok/render/Mesh.cc:95-136 | a hit returns the cached mesh and changes nothing, with no import. A miss with an accepted prefix returns a fresh mesh transcribed from the scene's first walked mesh; it adds exactly `fname` to the cache, leaves every other entry alone and imports exactly the candidates up to that prefix. A total failure returns null, leaves the cache unchanged and imports every candidate |
| `Loader.LoadTwice` | Blok/render/Mesh.cc:97-128 | after a successful load, a second load of the same name returns the same mesh and imports nothing more; after a failure, the second load fails too and retries every prefix |

## Left out

- The importer (`Assimp::Importer::ReadFile` and its post-processing flags) is foreign. It is a function parameter from path to optional scene. Its error string is not modelled.
- The importer is assumed to return the same scene for the same path. The model does not cover file-system changes between calls.
- The OpenGL calls in the constructor and destructor are GPU side effects and are not modelled. Only the layout of the face list as an index buffer is (`ElementIndices`). Taking `&vertices[0]` and `&faces[0]` on an empty list is also not modelled.
- The float contents of positions, normals, UVs, tangents and bitangents are opaque 32-bit patterns. They are only copied, or set to the pattern of 0.0f.
- The `blok_trace` and `blok_error` log messages are I/O. The ghost `attempts` log stands in for the failure trace lines.
- Deleting the extra sub-meshes is memory management. In the model those meshes are simply not kept: neither the cache nor the result refers to them.
- The commented-out material and texture code is dead code.
- Thread safety: the cache is used from one thread only.
- `Mesh::paths` is declared outside `Mesh.cc`. It is a field of `MeshLoader` that `LoadConst` reads but never changes.
