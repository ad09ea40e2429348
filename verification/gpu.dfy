/** What the framework needs from the graphics API, reduced to values: reference-counted
    device objects become numbered handles that a device hands out, and pixel memory
    becomes sequences of bytes. */
module Gpu {
  import opened Formats

  type Byte = b: int | 0 <= b < 0x100

  /** The framework's int2 and int3 vectors. */
  datatype Int2 = Int2(x: int, y: int)
  datatype Int3 = Int3(x: int, y: int, z: int)

  /** An owning reference to a device object (a texture, a swap chain, a window).
      Null is the released state of a comptr. */
  datatype Handle = Null | Live(id: nat)

  /** A view (shader-resource, unordered-access, render-target or depth-stencil view)
      together with the id of the resource it was created over and the format it reads
      or writes that resource in. */
  datatype View = NoView | ViewOf(id: nat, resource: nat, format: Format)

  /** One subresource of a staging texture as Map hands it to the CPU: the bytes and
      the distance in bytes between rows and between depth slices. */
  datatype Mapped = Mapped(data: seq<Byte>, rowPitch: nat, depthPitch: nat)

  /** The object factory of a graphics device. Every creation call hands out an id that
      no earlier call handed out, which is all the model needs of the real objects. */
  class Device {
    /** The number of objects created so far; their ids are 0 .. issued - 1. */
    var issued: nat

    constructor ()
      ensures issued == 0
    {
      issued := 0;
    }

    /** CreateTexture2D/3D, GetBuffer: a new resource. */
    method CreateResource() returns (r: Handle)
      modifies this
      ensures r == Live(old(issued)) && issued == old(issued) + 1
    {
      r := Live(issued);
      issued := issued + 1;
    }

    /** CreateShaderResourceView and its kin: a new view over the live resource r. */
    method CreateView(r: Handle, format: Format) returns (v: View)
      requires r.Live?
      modifies this
      ensures v == ViewOf(old(issued), r.id, format) && issued == old(issued) + 1
    {
      v := ViewOf(issued, r.id, format);
      issued := issued + 1;
    }
  }
}
