/**
 * The decision logic of `decimate_mesh_objects` and `rename_imported_objects`
 * (blender_ops.py). A scene object is reduced to what these functions read
 * and write: its name, whether it is a mesh, and its face count. The collapse
 * modifier itself runs inside Blender and is a parameter here: given the face
 * count and the ratio, it yields the new face count.
 */
module Decimation {
  import opened Text
  import opened Manifest

  class MeshObject {
    var name: string
    const isMesh: bool  // `obj.type == 'MESH'`: no operation here changes an object's type
    var faces: nat

    constructor (name: string, isMesh: bool, faces: nat)
      ensures this.name == name && this.isMesh == isMesh && this.faces == faces
    {
      this.name := name;
      this.isMesh := isMesh;
      this.faces := faces;
    }
  }

  /** `max_faces_limit * 1000`: the face count above which an individually exported mesh is reduced anyway. */
  function HardLimit(limit: nat): int {
    limit * 1000
  }

  /**
   * `decimate` is set: the object has a manifest entry, and its
   * `export_as_individual_mesh` is falsy or its face count is above the hard limit.
   */
  predicate Eligible(name: string, faces: nat, limit: nat, manifest: map<string, Entry>) {
    name in manifest && (manifest[name].custom.exportAsIndividualMesh != Some(true) || faces > HardLimit(limit))
  }

  /** `ratio = max_faces_limit / current_faces` */
  function Ratio(limit: nat, faces: nat): real
    requires faces > limit
  {
    limit as real / faces as real
  }

  /**
   * The turn reads `len(obj.data.polygons)` of an object that has no mesh
   * data, which raises `AttributeError`: an object with a manifest entry that
   * is not a mesh. A flagged object reads it in the test of the hard limit,
   * an unflagged one right after, and both before the `obj.type` test.
   */
  predicate NoPolygons(name: string, isMesh: bool, manifest: map<string, Entry>) {
    name in manifest && !isMesh
  }

  /** The collapse modifier is applied: an eligible mesh above the limit. */
  predicate Reduced(name: string, isMesh: bool, faces: nat, limit: nat, manifest: map<string, Entry>) {
    isMesh && Eligible(name, faces, limit, manifest) && faces > limit
  }

  /** The face count of an object after its turn of the loop. */
  function FacesAfter(name: string, isMesh: bool, faces: nat, limit: nat, manifest: map<string, Entry>,
                      collapse: (nat, real) -> nat): nat
    requires !NoPolygons(name, isMesh, manifest)
  {
    if Reduced(name, isMesh, faces, limit, manifest) then collapse(faces, Ratio(limit, faces)) else faces
  }

  /** `polycount, poly_removed` as the loop leaves them after one object. */
  function ObjectTotals(name: string, isMesh: bool, faces: nat, limit: nat, manifest: map<string, Entry>,
                        collapse: (nat, real) -> nat): (nat, nat)
    requires !NoPolygons(name, isMesh, manifest)
  {
    var first := if Eligible(name, faces, limit, manifest) then faces else 0;
    if !(isMesh && Eligible(name, faces, limit, manifest)) then (first, 0)
    else if Reduced(name, isMesh, faces, limit, manifest) then (first + faces, collapse(faces, Ratio(limit, faces)))
    else (first + faces + faces, 0)
  }

  /**
   * One turn of the loop: both accumulators start at zero for every object.
   * A turn that raises changes nothing.
   */
  method DecimateOne(obj: MeshObject, limit: nat, manifest: map<string, Entry>, collapse: (nat, real) -> nat)
    returns (polycount: nat, polyRemoved: nat, raises: bool)
    modifies obj
    ensures obj.name == old(obj.name)
    ensures raises == NoPolygons(obj.name, obj.isMesh, manifest)
    ensures raises ==> obj.faces == old(obj.faces)
    ensures !raises ==> obj.faces == FacesAfter(obj.name, obj.isMesh, old(obj.faces), limit, manifest, collapse)
    ensures !raises ==>
      (polycount, polyRemoved) == ObjectTotals(obj.name, obj.isMesh, old(obj.faces), limit, manifest, collapse)
  {
    var decimate := false;
    polycount, polyRemoved, raises := 0, 0, false;
    if obj.name in manifest {
      var exportFlag := manifest[obj.name].custom.exportAsIndividualMesh;
      if exportFlag == Some(true) && !obj.isMesh {
        // the hard-limit test reads the polygons
        return 0, 0, true;
      }
      if exportFlag != Some(true) || obj.faces > HardLimit(limit) {
        if !obj.isMesh {
          // `current_faces` reads the polygons
          return 0, 0, true;
        }
        decimate := true;
        var currentFaces := obj.faces;
        polycount := polycount + currentFaces;
      }
    }
    if obj.isMesh && decimate {
      var currentFaces := obj.faces;
      polycount := polycount + currentFaces;
      if currentFaces > limit {
        var ratio := Ratio(limit, currentFaces);
        obj.faces := collapse(currentFaces, ratio);
        var newFaces := obj.faces;
        polyRemoved := polyRemoved + newFaces;
      } else {
        polycount := polycount + currentFaces;
      }
    }
  }

  /** The position of the first object whose turn raises, or the length when none does. */
  function FirstNoPolygons(objs: seq<MeshObject>, manifest: map<string, Entry>): (k: nat)
    reads set o | o in objs
    ensures k <= |objs|
    ensures k < |objs| ==> NoPolygons(objs[k].name, objs[k].isMesh, manifest)
    ensures forall j :: 0 <= j < k ==> !NoPolygons(objs[j].name, objs[j].isMesh, manifest)
    decreases |objs|
  {
    if objs == [] then 0
    else if NoPolygons(objs[0].name, objs[0].isMesh, manifest) then 0
    else
      var k := FirstNoPolygons(objs[1..], manifest);
      assert forall j :: 1 <= j < |objs| ==> objs[1..][j - 1] == objs[j];
      k + 1
  }

  /**
   * How `decimate_mesh_objects` ends: the last object's totals, the
   * `UnboundLocalError` of an empty list (`polycount` never bound), or the
   * `AttributeError` of the object at the given position.
   */
  datatype Decimated = Totals(polycount: nat, polyRemoved: nat) | Unbound | NoPolygonsAt(at: nat)

  /**
   * `decimate_mesh_objects`: the objects take their turns in order until one
   * raises. The totals returned are the last object's.
   */
  method DecimateMeshObjects(objs: seq<MeshObject>, limit: nat, manifest: map<string, Entry>, collapse: (nat, real) -> nat)
    returns (outcome: Decimated)
    requires Distinct(objs)
    modifies set o | o in objs
    ensures forall o :: o in objs ==> o.name == old(o.name)
    ensures var k := old(FirstNoPolygons(objs, manifest));
      forall j :: 0 <= j < k ==>
        objs[j].faces == FacesAfter(old(objs[j].name), objs[j].isMesh, old(objs[j].faces), limit, manifest, collapse)
    ensures var k := old(FirstNoPolygons(objs, manifest));
      forall j :: k <= j < |objs| ==> objs[j].faces == old(objs[j].faces)
    ensures var k := old(FirstNoPolygons(objs, manifest));
      k < |objs| ==> outcome == NoPolygonsAt(k)
    ensures objs == [] ==> outcome == Unbound
    ensures 0 < |objs| == old(FirstNoPolygons(objs, manifest)) ==>
      var last := objs[|objs| - 1];
      var t := ObjectTotals(old(last.name), last.isMesh, old(last.faces), limit, manifest, collapse);
      outcome == Totals(t.0, t.1)
  {
    ghost var k := FirstNoPolygons(objs, manifest);
    outcome := Unbound;
    var i := 0;
    while i < |objs|
      invariant i <= |objs| && i <= k
      invariant forall o :: o in objs ==> o.name == old(o.name)
      invariant forall j :: 0 <= j < k ==> !NoPolygons(old(objs[j].name), objs[j].isMesh, manifest)
      invariant k < |objs| ==> NoPolygons(old(objs[k].name), objs[k].isMesh, manifest)
      invariant forall j :: 0 <= j < i ==>
        objs[j].faces == FacesAfter(old(objs[j].name), objs[j].isMesh, old(objs[j].faces), limit, manifest, collapse)
      invariant forall j :: i <= j < |objs| ==> objs[j].faces == old(objs[j].faces)
      invariant i == 0 ==> outcome == Unbound
      invariant i > 0 ==>
        var t := ObjectTotals(old(objs[i - 1].name), objs[i - 1].isMesh, old(objs[i - 1].faces), limit, manifest, collapse);
        outcome == Totals(t.0, t.1)
    {
      var polycount, polyRemoved, raises := DecimateOne(objs[i], limit, manifest, collapse);
      if raises {
        return NoPolygonsAt(i);
      }
      outcome := Totals(polycount, polyRemoved);
      i := i + 1;
    }
  }

  /* ---------------- properties ---------------- */

  /** With a positive limit the ratio handed to the modifier lies strictly between 0 and 1. */
  lemma RatioInUnitInterval(limit: nat, faces: nat)
    requires 0 < limit < faces
    ensures 0.0 < Ratio(limit, faces) < 1.0
  {
    assert limit as real < faces as real;
    assert Ratio(limit, faces) * faces as real == limit as real;
  }

  /**
   * An object outside the manifest, or a mesh at or below the limit, keeps
   * its faces and reports no removal.
   */
  lemma Untouched(name: string, isMesh: bool, faces: nat, limit: nat, manifest: map<string, Entry>, collapse: (nat, real) -> nat)
    requires name !in manifest || (isMesh && faces <= limit)
    ensures FacesAfter(name, isMesh, faces, limit, manifest, collapse) == faces
    ensures ObjectTotals(name, isMesh, faces, limit, manifest, collapse).1 == 0
  {
  }

  /**
   * An entry whose `export_as_individual_mesh` is not set is always eligible;
   * one flagged for individual export is eligible only above the hard limit.
   */
  lemma EligibleIff(name: string, faces: nat, limit: nat, manifest: map<string, Entry>)
    requires name in manifest
    ensures manifest[name].custom.exportAsIndividualMesh != Some(true) ==> Eligible(name, faces, limit, manifest)
    ensures manifest[name].custom.exportAsIndividualMesh == Some(true) ==>
      (Eligible(name, faces, limit, manifest) <==> faces > HardLimit(limit))
  {
  }

  /**
   * The reported polycount counts the object's faces twice when it is
   * reduced and three times when it is an eligible mesh needing no reduction;
   * `poly_removed` is the face count after the collapse, not the number removed.
   */
  lemma TotalsCount(name: string, isMesh: bool, faces: nat, limit: nat, manifest: map<string, Entry>, collapse: (nat, real) -> nat)
    requires isMesh && Eligible(name, faces, limit, manifest)
    ensures faces > limit ==>
      ObjectTotals(name, isMesh, faces, limit, manifest, collapse) == (2 * faces, FacesAfter(name, isMesh, faces, limit, manifest, collapse))
    ensures faces <= limit ==> ObjectTotals(name, isMesh, faces, limit, manifest, collapse) == (3 * faces, 0)
  {
  }

  /** What was imported: a list of objects, one object, or nothing. */
  datatype Imported = Many(objs: seq<MeshObject>) | One(obj: MeshObject) | Nothing

  function ImportedObjects(imported: Imported): seq<MeshObject> {
    match imported
    case Many(objs) => objs
    case One(obj) => [obj]
    case Nothing => []
  }

  /**
   * `rename_imported_objects`: every imported object is given the new name
   * and returned, in order. Blender's name setter decides the name an object
   * actually gets (the requested one, or a numbered variant when another
   * object already holds it); `settled(i)` is the name it settles on at the
   * i-th assignment. An object listed twice keeps the name of its last turn.
   */
  method RenameImportedObjects(imported: Imported, settled: nat -> string) returns (renamed: seq<MeshObject>)
    modifies set o | o in ImportedObjects(imported)
    ensures renamed == ImportedObjects(imported)
    ensures forall i :: 0 <= i < |renamed| && (forall j :: i < j < |renamed| ==> renamed[j] != renamed[i]) ==>
      renamed[i].name == settled(i)
    ensures forall o :: o in renamed ==> o.faces == old(o.faces)
  {
    renamed := [];
    match imported {
      case Many(objs) =>
        for k := 0 to |objs|
          invariant renamed == objs[..k]
          invariant forall i :: 0 <= i < k && (forall j :: i < j < k ==> objs[j] != objs[i]) ==> objs[i].name == settled(i)
          invariant forall o :: o in objs ==> o.faces == old(o.faces)
        {
          objs[k].name := settled(k);
          renamed := renamed + [objs[k]];
        }
      case One(obj) =>
        obj.name := settled(0);
        renamed := [obj];
      case Nothing =>
    }
  }
}
