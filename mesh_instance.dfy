/**
 * CMeshInstance: a placed copy of a mesh. It keeps a pointer to the active
 * mesh, which it either receives directly or obtains from the asset registry
 * by filename, and the dimensions it copies from that mesh when it offloads
 * the mesh into a vertex buffer.
 */
module MeshInstances {
  import opened Assets

  class MeshInstance {
    /** mp_ActiveMesh; None is the NULL pointer. */
    var activeMesh: Option<Asset>
    /** m_Dimensions.x and m_Dimensions.y. */
    var width: real
    var height: real

    /** The active mesh, when there is one, is a mesh (the field's C++ type is CMesh*). */
    predicate Valid()
      reads this
    {
      activeMesh.Some? ==> activeMesh.value.kind == Mesh
    }

    constructor ()
      ensures Valid() && activeMesh == None && width == 0.0 && height == 0.0
    {
      activeMesh := None;
      width, height := 0.0, 0.0;
    }

    /**
     * LoadMesh(CMesh*): a NULL pointer is ignored and reported as failure; any
     * other pointer becomes the active mesh.
     */
    method LoadMesh(p: Option<Asset>) returns (ok: bool)
      requires Valid() && (p.Some? ==> p.value.kind == Mesh)
      modifies this
      ensures Valid()
      ensures ok <==> p.Some?
      ensures activeMesh == if p.Some? then p else old(activeMesh)
      ensures width == old(width) && height == old(height)
    {
      if p.Some? {
        activeMesh := p;
      }
      ok := p.Some?;
    }

    /**
     * LoadMesh(filename): the active mesh is overwritten with whatever
     * Create<CMesh>(filename) returns under the default owner, NULL included;
     * `loads` is what the mesh loader would report.
     */
    method LoadMeshFromFile(manager: AssetManager, filename: string, loads: bool) returns (ok: bool)
      requires Valid() && manager.Valid()
      requires KindAgrees(manager.assets, Mesh, filename, NoOwner)
      modifies this, manager
      ensures Valid() && manager.Valid()
      ensures Outcome(manager.State(), activeMesh) == FindOrLoad(old(manager.State()), Mesh, filename, NoOwner, loads)
      ensures ok <==> activeMesh.Some?
      ensures width == old(width) && height == old(height)
    {
      activeMesh := manager.Create(Mesh, filename, NoOwner, loads);
      ok := activeMesh.Some?;
    }

    /**
     * LoadIntoVBO: without an active mesh nothing happens and the result is
     * false. Otherwise the dimensions are taken from the mesh and the result
     * is what offloading the mesh reports. `widthOf`, `heightOf` and `offload`
     * stand for the mesh's GetMeshWidth, GetMeshHeight and Offload.
     */
    method LoadIntoVBO(widthOf: Asset -> real, heightOf: Asset -> real, offload: Asset -> bool) returns (ok: bool)
      requires Valid()
      modifies this
      ensures Valid() && activeMesh == old(activeMesh)
      ensures activeMesh.None? ==> !ok && width == old(width) && height == old(height)
      ensures activeMesh.Some? ==>
                width == widthOf(activeMesh.value) && height == heightOf(activeMesh.value)
                && ok == offload(activeMesh.value)
    {
      if activeMesh.None? {
        return false;
      }
      var mesh := activeMesh.value;
      width := widthOf(mesh);
      height := heightOf(mesh);
      ok := offload(mesh);
    }
  }

  /**
   * Two mesh instances that load the same file by name use the default owner,
   * so once the first load succeeds the second gets the very same mesh and
   * the registry does not load it again.
   */
  method LoadSharedMesh(a: MeshInstance, b: MeshInstance, manager: AssetManager, filename: string,
                        loads1: bool, loads2: bool) returns (ok1: bool, ok2: bool)
    requires a != b && a.Valid() && b.Valid() && manager.Valid()
    requires KindAgrees(manager.assets, Mesh, filename, NoOwner)
    modifies a, b, manager
    ensures ok1 ==> ok2 && b.activeMesh == a.activeMesh
    ensures ok1 ==> |manager.assets| <= |old(manager.assets)| + 1
  {
    ok1 := a.LoadMeshFromFile(manager, filename, loads1);
    if ok1 {
      LookupUnique(manager.State(), a.activeMesh.value);
    }
    ghost var between := manager.State();
    ok2 := b.LoadMeshFromFile(manager, filename, loads2);
    if ok1 {
      CreateReturnsExisting(between, a.activeMesh.value, Mesh, loads2);
    }
  }
}
