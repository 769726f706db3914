/**
 * The parts of three.js objects that the loader and the scene manager read or
 * write: positions and scales, materials, bounding boxes, and scene nodes.
 */
module Three {
  import opened Wrappers

  /**
   * A coordinate as JavaScript can hold it here: a number, or `NaN` (what
   * negating `undefined` yields). Floating point is abstracted to `real`.
   */
  datatype Coord = Num(value: real) | NaN

  datatype Vector3 = Vector3(x: Coord, y: Coord, z: Coord)

  const ORIGIN: Vector3 := Vector3(Num(0.0), Num(0.0), Num(0.0))

  /** `Box3`; only the lower corner's y coordinate matters here. */
  datatype Box3 = Box3(minY: real)

  /** `BufferGeometry`; its `boundingBox` is `null` until it has been computed. */
  datatype Geometry = Geometry(boundingBox: Option<Box3>)

  /** A material object; meshes may share one. */
  class Material {
    var transparent: bool

    constructor (transparent: bool)
      ensures this.transparent == transparent
    {
      this.transparent := transparent;
    }
  }

  /**
   * What a node's `material` holds: nothing, one material, or an array of
   * materials (a mesh with several material groups).
   */
  datatype MaterialSlot = NoMaterial | Single(material: Material) | Multi(materials: seq<Material>)

  /** An animation clip carried by a loaded glTF asset. */
  datatype AnimationClip = AnimationClip(name: string)

  /** A scene-graph node (`Object3D` and its `Mesh` subclass). */
  class Object3D {
    const isMesh: bool
    const material: MaterialSlot
    const geometry: Option<Geometry>
    const children: seq<Object3D>
    var position: Vector3
    var scale: Vector3

    constructor (isMesh: bool, material: MaterialSlot, geometry: Option<Geometry>, children: seq<Object3D>)
      ensures this.isMesh == isMesh && this.material == material
      ensures this.geometry == geometry && this.children == children
      ensures position == ORIGIN
      ensures scale == Vector3(Num(1.0), Num(1.0), Num(1.0))
    {
      this.isMesh := isMesh;
      this.material := material;
      this.geometry := geometry;
      this.children := children;
      position := ORIGIN;
      scale := Vector3(Num(1.0), Num(1.0), Num(1.0));
    }
  }
}
