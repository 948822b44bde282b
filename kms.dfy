/** The kernel's display state as the capture program sees it at one kernel
    call: the plane enumeration and the framebuffer table behind the plane ids.
    Kernel calls (`drmModeGetPlaneResources`, `drmModeGetPlane`, `drmModeGetFB`)
    are replaced by reads of such immutable snapshots; a capture reads one for
    the scan and another for the fetch that follows it. */
module Kms {
  import opened Wrappers

  /** A framebuffer record as `drmModeGetFB` reports it. `handle` is 0 when the
      caller lacks the privilege to obtain kernel memory handles. */
  datatype Framebuffer = Framebuffer(width: nat, height: nat, pitch: nat, handle: nat)

  /** One display plane; `fbId == 0` means that no buffer is attached. */
  datatype Plane = Plane(fbId: nat)

  /** The plane enumeration, in the kernel's order, and the framebuffer table:
      an id missing from `fbs` is one for which `drmModeGetFB` returns NULL. */
  datatype Display = Display(planes: seq<Plane>, fbs: map<nat, Framebuffer>)

  /** `drmModeGetFB`: the framebuffer record for `id`, or None (a NULL pointer). */
  function FetchFb(d: Display, id: nat): Option<Framebuffer>
  {
    if id in d.fbs then Some(d.fbs[id]) else None
  }
}
