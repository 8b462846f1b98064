# IronClad asset registry, in Dafny

This project models the asset registry of the IronClad 2D engine (`CAssetManager`)
and the two clients of it whose code is visible: `CMeshInstance` and `CAnimation`.

- `CAssetManager` keeps one process-wide list of loaded assets. `Create<T>(filename, owner)`
  is find-or-create keyed on the filename and an opaque owner token. The NULL default owner
  is one more bucket: every caller that omits the owner shares it. A different owner gets
  its own loaded copy. `Find` (by filename or by numeric id) only looks. `Destroy` erases one
  asset and reports whether it was registered. `DestroyAll` empties the list.
  `GetAssetCount` returns the list's size.
- `CMeshInstance` holds the active mesh and its dimensions. It takes a mesh by pointer or
  loads one by filename, and copies the mesh's width and height when it offloads the mesh
  into a vertex buffer.
- `CAnimation` keeps a queue of textures loaded by filename. Stepping moves through that
  queue forwards and backwards with wrap-around; the model tracks the position as an index.

Layout:

- `assets.dfy`, module `Assets`. The registry as values: `Registry`, `Lookup`,
  `LookupById`, `FindOrLoad`, `Unregister`, `Cleared`, `Count`, and the invariant
  `WellFormed`. Lemmas state dedup, owner isolation, failed loads and exact removal. The
  class `AssetManager` holds the list as a `seq` field. Its methods are proved against those
  functions: `Find` and `FindById` are loop scans, `Destroy` is a scan followed by an erase.
- `mesh_instance.dfy`, module `MeshInstances`: the class `MeshInstance`.
- `animation.dfy`, module `Animations`: the cursor steps `Next`/`Prev` with lemmas about
  whole turns, and the class `Animation`.

Modelling decisions:

- An asset handle (the C++ pointer) is an `Asset` value carrying a unique `id`. A counter
  issues the ids and `DestroyAll` does not reset it, so in the model a destroyed asset's
  handle never denotes a later asset. In the C++ code a freed address can be reused; see
  "## Left out".
- The owner is `NoOwner` (NULL) or `OwnedBy(address)`, compared only for equality.
  `Find(filename, owner)` and `Find(asset_id, owner)` both require the stored owner to equal
  the given one, NULL included. A NULL owner could also be read as matching any stored
  owner in `Find`; the header documents no such rule, and with it two NULL-owner callers
  could receive another owner's private copy, so the model does not follow it.
- Filenames are compared as exact strings (`HasKey`): `a.png` and `./a.png` are different
  keys. No path normalisation is modelled; the header says only "matching filename".
- Each type's loader is a boolean parameter `loads`: what the loader would report. It is
  consulted only when `Find` misses.
- The header shows no type check on what `Create<T>` returns as a `T*`. In the model every
  entry has a `Kind`, and `AssetManager.Create` requires a hit of the requested kind
  (`KindAgrees`).
- `GetAssetCount` returns `size()` as a `uint32_t`, so `Count` is the length modulo 2^32.
- `AssetManager.inl` is not part of this model. The behaviour of `Find`, `Create`,
  `Destroy` and `DestroyAll` comes from the header's documentation
  (`AssetManager.hpp:35-118`). The header does not say in which order `Find` scans the list
  or where `Create` puts a new asset. The model chooses a scan from the front that returns
  the first match, and an append at the end of the list. These are modelling choices, not
  documented behaviour.

## Model

| member | source | states |
|---|---|---|
| `Assets.Lookup` | Source/include/IronClad/Asset/AssetManager.hpp:51-67 | Find by filename returns a registered asset with that filename and owner, and returns NULL exactly when no registered asset has that key |
| `Assets.LookupById` | Source/include/IronClad/Asset/AssetManager.hpp:69-70 | Find by id returns a registered asset with that id and owner, and returns NULL exactly when there is none |
| `Assets.LookupUnique` | Source/include/IronClad/Asset/AssetManager.hpp:76-84 | in a well-formed registry every registered asset is the one Find returns for its own (filename, owner) |
| `Assets.LookupByIdUnique` | Source/include/IronClad/Asset/AssetManager.hpp:69-70 | in a well-formed registry every registered asset is the one Find returns for its own id and owner |
| `Assets.FindOrLoad` | Source/include/IronClad/Asset/AssetManager.hpp:72-96 | Create returns an asset registered under the requested key or NULL; NULL only when the loader failed, and then the registry is unchanged; a hit of the agreed kind is returned at that kind; the list only grows, by at most one entry, which the model appends at the end |
| `Assets.CreateWellFormed` | Source/include/IronClad/Asset/AssetManager.hpp:76-84 | Create keeps ids below the counter, ids unique and at most one entry per (filename, owner) |
| `Assets.CreateReturnsExisting` | Source/include/IronClad/Asset/AssetManager.hpp:55-57 | when (f, o) is registered, Create(f, o) returns that asset, registers nothing, and the result does not depend on the loader |
| `Assets.CreateTwiceSame` | Source/include/IronClad/Asset/AssetManager.hpp:72-92 | two successive Create calls with the same filename and owner return the identical asset, and the second changes nothing |
| `Assets.OwnerIsolation` | Source/include/IronClad/Asset/AssetManager.hpp:76-84 | Create for a second owner of an already registered file loads a new asset whose id differs from every registered one; the count grows by one; the first owner still finds its own copy |
| `Assets.CreatePreservesOtherKeys` | Source/include/IronClad/Asset/AssetManager.hpp:76-84 | Create under one (filename, owner) does not change what Find returns for any other key |
| `Assets.CreatePreservesIssuedIds` | Source/include/IronClad/Asset/AssetManager.hpp:69-70 | Create does not change what Find by id returns for any id issued before |
| `Assets.FailedLoadIsRetried` | Source/include/IronClad/Asset/AssetManager.hpp:72-89 | a failed load returns NULL and leaves the registry as it was; the next Create for the key runs the loader again and registers the asset if the load succeeds |
| `Assets.RemoveFirst` | Source/include/IronClad/Asset/AssetManager.hpp:101-109 | erasing a present asset shortens the list by one and removes exactly one copy of it (as a multiset); erasing an absent one changes nothing |
| `Assets.Unregister` | Source/include/IronClad/Asset/AssetManager.hpp:101-109 | Destroy returns TRUE iff the handle is non-NULL and registered; on TRUE the list shrinks by one; on FALSE nothing changes; the id counter is untouched |
| `Assets.DestroyWellFormed` | Source/include/IronClad/Asset/AssetManager.hpp:101-109 | Destroy keeps the registry well formed |
| `Assets.DestroyRemovesExactlyOne` | Source/include/IronClad/Asset/AssetManager.hpp:101-109 | after destroying a registered asset, it can be found neither by key nor by id; the count drops by one; every other asset stays registered; every other key, including another owner's copy of the same file, finds what it found before |
| `Assets.Cleared` | Source/include/IronClad/Asset/AssetManager.hpp:111-115 | after DestroyAll the registry is well formed and empty, the count is 0, no Find succeeds, and the id counter is kept |
| `Assets.Count` | Source/include/IronClad/Asset/AssetManager.hpp:117-118 | GetAssetCount fits in 32 bits and equals the number of registered assets whenever that number fits |
| `Assets.DestroyAllIdempotent` | Source/include/IronClad/Asset/AssetManager.hpp:111-118 | DestroyAll on an empty registry changes nothing, and the count is 0 afterwards |
| `Assets.TwoOwnersScenario` | Source/include/IronClad/Asset/AssetManager.hpp:76-84 | Create(f, A) gives H1; Create(f, A) again gives H1; Create(f, B) gives H2, which differs from H1; Destroy(H1) succeeds; then Find(f, A) is NULL and Find(f, B) is H2 |
| `Assets.AssetManager.constructor` | Source/include/IronClad/Asset/AssetManager.hpp:121-125 | the registry starts empty and well formed |
| `Assets.AssetManager.Find` | Source/include/IronClad/Asset/AssetManager.hpp:63-67 | the scan returns the entry with the given filename and owner that comes first in the model's front-to-back order, and it has no modifies clause, so it never loads or registers anything |
| `Assets.AssetManager.FindById` | Source/include/IronClad/Asset/AssetManager.hpp:69-70 | the scan returns the first entry with the given id and owner, and it changes nothing |
| `Assets.AssetManager.Create` | Source/include/IronClad/Asset/AssetManager.hpp:91-96 | the new list and the result are those of FindOrLoad on the old list, the registry stays well formed, and a non-NULL result has the requested kind |
| `Assets.AssetManager.Destroy` | Source/include/IronClad/Asset/AssetManager.hpp:108-109 | the new list and the flag are those of Unregister on the old list, and the registry stays well formed |
| `Assets.AssetManager.DestroyAll` | Source/include/IronClad/Asset/AssetManager.hpp:111-115 | the list becomes empty and the registry stays well formed |
| `Assets.AssetManager.GetAssetCount` | Source/include/IronClad/Asset/AssetManager.hpp:117-118 | returns the number of registered assets truncated to 32 bits |
| `MeshInstances.MeshInstance.LoadMesh` | Source/src/Graphics/MeshInstance.cpp:6-10 | a NULL mesh is ignored and gives false; otherwise the mesh becomes active and the result is true; the dimensions are untouched |
| `MeshInstances.MeshInstance.LoadMeshFromFile` | Source/src/Graphics/MeshInstance.cpp:12-16 | the active mesh is overwritten with the result of Create for a mesh under the default owner, even when that result is NULL; the registry changes as Create says; the result is true iff the new active mesh is non-NULL |
| `MeshInstances.MeshInstance.LoadIntoVBO` | Source/src/Graphics/MeshInstance.cpp:18-26 | with no active mesh the result is false and the dimensions are untouched; otherwise the dimensions become the mesh's width and height and the result is the mesh's offload result |
| `MeshInstances.LoadSharedMesh` | Source/src/Graphics/MeshInstance.cpp:12-16 | two mesh instances loading the same file by name end up with the same mesh, and the registry holds at most one new entry |
| `MeshInstances.MeshInstance.constructor` | Source/src/Graphics/MeshInstance.cpp:1 | a new mesh instance has no active mesh and zero dimensions; its source, `MeshInstance.hpp`, is not part of this model, so this starting state is the model's choice |
| `Animations.Next` | Source/include/Entity/Animation.hpp:111-116 | one NextSprite step stays in the queue; it moves to the next position and reports true exactly when that exists, and otherwise it goes to position 0 and reports false |
| `Animations.Prev` | Source/include/Entity/Animation.hpp:118-123 | one PrevSprite step stays in the queue; it moves to the previous position and reports true exactly when that exists, and otherwise it goes to the last position and reports false |
| `Animations.NextPrevInverse` | Source/include/Entity/Animation.hpp:111-123 | PrevSprite undoes NextSprite and NextSprite undoes PrevSprite, and each pair agrees on whether a wrap happened |
| `Animations.ForwardWithin` | Source/include/Entity/Animation.hpp:111-116 | NextSprite calls that stay before the end of the queue advance one position each and report no wrap |
| `Animations.BackwardWithin` | Source/include/Entity/Animation.hpp:118-123 | PrevSprite calls that stay after the start of the queue go back one position each and report no wrap |
| `Animations.ForwardFullTurn` | Source/include/Entity/Animation.hpp:111-116 | n NextSprite calls on a queue of n textures return the model's index to its starting position with exactly one wrap reported |
| `Animations.BackwardFullTurn` | Source/include/Entity/Animation.hpp:118-123 | n PrevSprite calls on a queue of n textures return the model's index to its starting position with exactly one wrap reported |
| `Animations.ForwardVisitsAll` | Source/include/Entity/Animation.hpp:111-116 | from any position, every texture of the queue is reached in fewer than n NextSprite calls |
| `Animations.Animation.constructor` | Source/include/Entity/Animation.hpp:46 | a new animation has an empty texture queue and no active texture |
| `Animations.Animation.GetTexture` | Source/include/Entity/Animation.hpp:132-133 | the active texture, when there is one, is a texture of the queue and is the one under the cursor |
| `Animations.Animation.LoadAnimationFromFile` | Source/include/Entity/Animation.hpp:62-71 | asks the registry for a texture under the default owner. On NULL the result is false and the queue is unchanged. Otherwise exactly that texture is appended at the end and the result is true. The cursor, active texture and enabled flag are untouched |
| `Animations.Animation.NextSprite` | Source/include/Entity/Animation.hpp:111-116 | the cursor and result follow Next, the new position's texture becomes active, and the queue is unchanged |
| `Animations.Animation.PrevSprite` | Source/include/Entity/Animation.hpp:118-123 | the cursor and result follow Prev, the new position's texture becomes active, and the queue is unchanged |
| `Animations.Animation.EnableAnimation` | Source/include/Entity/Animation.hpp:92-101 | sets the enabled flag; GetTexture returns the same texture as before, so disabling keeps the current sprite |
| `Animations.LoadSameFileTwice` | Source/include/Entity/Animation.hpp:62-70 | loading the same file twice, once the first load succeeds, appends the same shared texture twice while the registry gains at most one entry |

## Left out

- Assets.FindOrLoad: its clause that the old list is a prefix of the new one, and the "first entry" of `Assets.AssetManager.Find`, rest on the model's choice of a front-to-back scan and an append at the end. `AssetManager.inl` is not part of this model, and the header documents neither.

- `Create<T>(owner)`, the overload without a filename (AssetManager.hpp:98-99): its body is not visible and the header documents nothing about it.
- The `const char*` and `std::string` overloads of `Find` and `Create` are one operation here.
- Loading and decoding of textures, meshes and shaders, and the error log on a failed load: the loader is the `loads` parameter.
- Releasing an asset's memory on `Destroy` and `DestroyAll`: the model removes the entry only.
- The singleton machinery (`GetInstance`, the private constructor, copy constructor and assignment): the model uses one explicit `AssetManager` object.
- The cast of a hit to `T*` in `Create<T>`: the header shows no type check, so the model requires a hit of the requested kind (the kind tag and `KindAgrees`).
- Asset identity: a handle is identified by an id the model never reuses, not by an address. In the C++ code `Destroy` frees the asset, a later asset may get the same address, and a stale pointer passed to `Destroy` can then return TRUE and destroy that later asset; in the model it returns FALSE.
- The width of ids is not modelled: ids reach `Find` as `uint32_t`, but the model's counter is unbounded. Id uniqueness (`Assets.WellFormed`, `Assets.LookupByIdUnique`, `Assets.CreatePreservesIssuedIds`) therefore holds only while fewer than 2^32 assets have been created.
- `Asset.hpp` is not part of this model. How `CAsset` issues ids is not visible, so the model uses a counter.
- `MeshInstance.hpp` is not part of this model. The model's constructor starts with no active mesh and zero dimensions.
- MeshInstances.MeshInstance.LoadIntoVBO: the vertex buffer is not modelled. `GetMeshWidth`, `GetMeshHeight` and `Offload` are the parameters `widthOf`, `heightOf` and `offload`, so nothing is stated about what offloading writes into the buffer.
- `CAnimation`'s constructor leaves `mp_ActiveTexture` and `m_enabled` uninitialised. The model starts them as NULL and false.
- `NextSprite`, `PrevSprite` and `EnableAnimation` are declared without visible bodies. The model follows their documentation. For `NextSprite` and `PrevSprite` it requires a non-empty queue. For `EnableAnimation` it sets the flag and changes nothing else.
- Animations.Animation.NextSprite, Animations.Animation.PrevSprite: the model keeps the position in the queue as an index, `cursor`, which `CAnimation` does not have (its members are the queue, the active texture, the delay and the flag, Animation.hpp:135-139). The C++ class must find its position from the active texture. When the same texture is queued twice, as `Animations.LoadSameFileTwice` shows the default owner allows, that position is ambiguous, and `Animations.ForwardFullTurn` (one wrap in n calls) holds of the index, not of a search for the active texture. From a new animation with no active texture, with two or more textures queued the first `NextSprite` makes position 1 active, so position 0 is skipped until the first wrap; with one texture it makes position 0 active and returns FALSE, reporting a loop although no texture was active before; the documentation does not say what the first step does.
- `CAnimation` timing (`SetAnimationRate`, `Update`, `m_delay`) is left out because it is floating-point time accumulation.
- `AddSprite` is left out because its bodies are not visible and it works on pixels and rectangles.
- `CEntity`, the base class of `CAnimation`, and its original texture are not part of this model.
- Shader effects (`Effect.hpp`), rigid bodies (`RigidBody.hpp`) and glyph data (`Glyph.hpp`) are outside the registry.
- Concurrency: the registry is single-threaded.
