/** D3D11Window (d3d11-window.cpp): a Win32 window with a D3D11 device and swap chain.
    The window keeps render-target views of the swap chain's back buffer and an optional
    depth buffer sized to the client area, rebuilds them when a WM_SIZE or WM_SIZING
    message reports a new usable size, and runs a message loop that renders frames until
    the window is shut down. */
module Window {
  import opened Gpu
  import opened Formats

  /** A client rectangle as GetClientRect reports it. */
  datatype Rect = Rect(left: int, top: int, right: int, bottom: int)

  /** The messages MsgProc tells apart; every other message goes to DefWindowProc. */
  datatype Message = Close | Destroy | Size(lParam: int) | Sizing(clientRect: Rect) | Other(code: int)

  /** LOWORD and HIWORD of a WM_SIZE lParam: the new client width and height. lParam is
      read as a two's-complement integer of any width: the Euclidean % and / by 0x10000
      pick the same low and high words as the masks and shifts, negative values included. */
  function SizeFromLParam(lParam: int): (dims: Int2)
    ensures 0 <= dims.x < 0x10000 && 0 <= dims.y < 0x10000
  {
    Int2(lParam % 0x10000, (lParam / 0x10000) % 0x10000)
  }

  /** Windows packs width and height into the low and high words; unpacking recovers them. */
  lemma SizeRoundTrip(width: int, height: int)
    requires 0 <= width < 0x10000 && 0 <= height < 0x10000
    ensures SizeFromLParam(height * 0x10000 + width) == Int2(width, height)
  {
    var lParam := height * 0x10000 + width;
    assert lParam / 0x10000 == height;
    assert lParam % 0x10000 == width;
  }

  /** The client size a WM_SIZING message leads MsgProc to read. */
  function ClientSize(r: Rect): Int2
  {
    Int2(r.right - r.left, r.bottom - r.top)
  }

  /** The resize gate: both dimensions positive (a minimised window reports zero) and
      some dimension different from the current size. */
  predicate ShouldResize(current: Int2, dimsNew: Int2)
  {
    dimsNew.x > 0 && dimsNew.y > 0 && (dimsNew.x != current.x || dimsNew.y != current.y)
  }

  /** A size message repeating the current size, or reporting an empty client area, does
      nothing; the first usable size always gets through, since the window starts at 0 x 0. */
  lemma ResizeGate(current: Int2, dimsNew: Int2)
    ensures !ShouldResize(current, current)
    ensures dimsNew.x <= 0 || dimsNew.y <= 0 ==> !ShouldResize(current, dimsNew)
    ensures ShouldResize(Int2(0, 0), dimsNew) <==> dimsNew.x > 0 && dimsNew.y > 0
    ensures ShouldResize(current, dimsNew) <==> dimsNew.x > 0 && dimsNew.y > 0 && dimsNew != current
  {
  }

  /** The number of leading batches of messages that do not contain WM_CLOSE: the number
      of frames the main loop renders before it finds the window gone. */
  function OpenBatches(batches: seq<seq<Message>>): (n: nat)
    ensures n <= |batches|
    ensures forall i | 0 <= i < n :: Close !in batches[i]
    ensures n < |batches| ==> Close in batches[n]
  {
    if batches == [] || Close in batches[0] then 0 else 1 + OpenBatches(batches[1..])
  }

  class D3D11Window {
    var hWnd: Handle
    var device: Device?
    var swapChain: Handle
    /** The size of the swap chain's buffers. */
    var chainDims: Int2
    /** m_dims: the client size the targets were last built for. */
    var dims: Int2
    var backBuffer: Handle
    var rtvSrgb: View
    var rtvRaw: View
    var hasDepthBuffer: bool
    var texDepth: Handle
    /** The size and format the depth texture was created with. */
    var depthDims: Int2
    var depthFormat: Format
    var dsv: View
    var srvDepth: View
    /** Calls of OnRender, which subclasses override to draw a frame. */
    var framesRendered: nat
    /** Whether PostQuitMessage has been called. */
    var quitPosted: bool

    /** The six size-dependent objects OnResize drops and recreates. */
    predicate NoTargets()
      reads this
    {
      backBuffer == Null && rtvSrgb == NoView && rtvRaw == NoView &&
      texDepth == Null && dsv == NoView && srvDepth == NoView
    }

    /** The back buffer with an sRGB and a raw RGBA8 render-target view over it, and, when
        the window has a depth buffer, an R32 depth texture of the client size with a D32
        depth-stencil view and an R32_FLOAT shader-resource view over it. */
    predicate TargetsReady()
      reads this
    {
      backBuffer.Live? &&
      rtvSrgb.ViewOf? && rtvSrgb.resource == backBuffer.id && rtvSrgb.format == R8G8B8A8_UNORM_SRGB &&
      rtvRaw.ViewOf? && rtvRaw.resource == backBuffer.id && rtvRaw.format == R8G8B8A8_UNORM &&
      (hasDepthBuffer ==>
        texDepth.Live? && depthDims == dims && depthFormat == R32_TYPELESS &&
        dsv.ViewOf? && dsv.resource == texDepth.id && dsv.format == D32_FLOAT &&
        srvDepth.ViewOf? && srvDepth.resource == texDepth.id && srvDepth.format == R32_FLOAT) &&
      (!hasDepthBuffer ==> texDepth == Null && dsv == NoView && srvDepth == NoView)
    }

    /** Every size-dependent object held has an id in [lo, hi): with lo the device's count
        before a call and hi its count after, the object was created by that call. */
    predicate IdsWithin(lo: nat, hi: nat)
      reads this
    {
      (backBuffer.Live? ==> lo <= backBuffer.id < hi) &&
      (rtvSrgb.ViewOf? ==> lo <= rtvSrgb.id < hi) &&
      (rtvRaw.ViewOf? ==> lo <= rtvRaw.id < hi) &&
      (texDepth.Live? ==> lo <= texDepth.id < hi) &&
      (dsv.ViewOf? ==> lo <= dsv.id < hi) &&
      (srvDepth.ViewOf? ==> lo <= srvDepth.id < hi)
    }

    /** Init has run: there is a device and a swap chain. */
    predicate Ready()
      reads this
    {
      device != null && swapChain.Live?
    }

    /** The targets are either all absent (before the first resize) or all present and
        sized to the swap chain, which is sized to m_dims; every id held came from the device. */
    predicate Valid()
      reads this, device
    {
      (NoTargets() || (TargetsReady() && chainDims == dims)) &&
      (device != null ==> IdsWithin(0, device.issued)) &&
      (device == null ==> NoTargets())
    }

    /** The fields OnResize rebuilds: the swap chain's size, m_dims and the six targets
        with the depth texture's size and format. */
    function Targets(): (Int2, Int2, Handle, View, View, Handle, Int2, Format, View, View)
      reads this
    {
      (chainDims, dims, backBuffer, rtvSrgb, rtvRaw, texDepth, depthDims, depthFormat, dsv, srvDepth)
    }

    /** The fields no size change touches. */
    function Settings(): (Handle, Device?, Handle, bool, nat, bool)
      reads this
    {
      (hWnd, device, swapChain, hasDepthBuffer, framesRendered, quitPosted)
    }

    constructor ()
      ensures hWnd == Null && device == null && swapChain == Null
      ensures dims == Int2(0, 0) && hasDepthBuffer && NoTargets() && Valid()
      ensures framesRendered == 0 && !quitPosted
    {
      hWnd, device, swapChain := Null, null, Null;
      chainDims, dims := Int2(0, 0), Int2(0, 0);
      backBuffer, rtvSrgb, rtvRaw := Null, NoView, NoView;
      hasDepthBuffer := true;
      texDepth, depthDims, depthFormat, dsv, srvDepth := Null, Int2(0, 0), UNKNOWN, NoView, NoView;
      framesRendered, quitPosted := 0, false;
    }

    /** The part of Init the rest of the window depends on: the window handle CreateWindow
        returned, the device, and a swap chain whose buffers start at 1 x 1. */
    method Init(device: Device, window: nat)
      requires NoTargets()
      modifies this, device
      ensures hWnd == Live(window) && this.device == device && Ready() && Valid()
      ensures swapChain == Live(old(device.issued)) && chainDims == Int2(1, 1)
      ensures dims == old(dims) && hasDepthBuffer == old(hasDepthBuffer) && NoTargets()
      ensures framesRendered == old(framesRendered) && quitPosted == old(quitPosted)
    {
      hWnd := Live(window);
      swapChain := device.CreateResource();
      chainDims := Int2(1, 1);
      this.device := device;
    }

    /** Drops the six size-dependent objects (comptr release). */
    method ReleaseTargets()
      modifies this
      ensures NoTargets() && Settings() == old(Settings())
      ensures chainDims == old(chainDims) && dims == old(dims)
      ensures depthDims == old(depthDims) && depthFormat == old(depthFormat)
    {
      backBuffer, rtvSrgb, rtvRaw := Null, NoView, NoView;
      texDepth, dsv, srvDepth := Null, NoView, NoView;
    }

    /** IDXGISwapChain::ResizeBuffers, which fails unless every reference to the old
        buffers is gone: here, unless all six targets have been released. */
    method ResizeBuffers(dimsNew: Int2)
      requires swapChain.Live? && NoTargets()
      modifies this
      ensures chainDims == dimsNew && NoTargets() && Settings() == old(Settings()) && dims == old(dims)
      ensures depthDims == old(depthDims) && depthFormat == old(depthFormat)
    {
      chainDims := dimsNew;
    }

    /** GetBuffer, then an sRGB and a raw render-target view of the back buffer. */
    method CreateBackBufferTargets(dev: Device)
      requires dev == device && backBuffer == Null
      modifies this, dev
      ensures backBuffer == Live(old(dev.issued))
      ensures rtvSrgb == ViewOf(old(dev.issued) + 1, backBuffer.id, R8G8B8A8_UNORM_SRGB)
      ensures rtvRaw == ViewOf(old(dev.issued) + 2, backBuffer.id, R8G8B8A8_UNORM)
      ensures dev.issued == old(dev.issued) + 3
      ensures texDepth == old(texDepth) && dsv == old(dsv) && srvDepth == old(srvDepth)
      ensures depthDims == old(depthDims) && depthFormat == old(depthFormat)
      ensures Settings() == old(Settings()) && chainDims == old(chainDims) && dims == old(dims)
    {
      backBuffer := dev.CreateResource();
      rtvSrgb := dev.CreateView(backBuffer, R8G8B8A8_UNORM_SRGB);
      rtvRaw := dev.CreateView(backBuffer, R8G8B8A8_UNORM);
    }

    /** An R32_TYPELESS depth texture of the given size, with a D32_FLOAT depth-stencil
        view and an R32_FLOAT shader-resource view over it. */
    method CreateDepthTargets(dev: Device, size: Int2)
      requires dev == device
      modifies this, dev
      ensures texDepth == Live(old(dev.issued)) && depthDims == size && depthFormat == R32_TYPELESS
      ensures dsv == ViewOf(old(dev.issued) + 1, texDepth.id, D32_FLOAT)
      ensures srvDepth == ViewOf(old(dev.issued) + 2, texDepth.id, R32_FLOAT)
      ensures dev.issued == old(dev.issued) + 3
      ensures backBuffer == old(backBuffer) && rtvSrgb == old(rtvSrgb) && rtvRaw == old(rtvRaw)
      ensures Settings() == old(Settings()) && chainDims == old(chainDims) && dims == old(dims)
    {
      texDepth := dev.CreateResource();
      depthDims, depthFormat := size, R32_TYPELESS;
      dsv := dev.CreateView(texDepth, D32_FLOAT);
      srvDepth := dev.CreateView(texDepth, R32_FLOAT);
    }

    /** Rebuilds the size-dependent objects for a new client size: record the size,
        release the six targets, resize the swap chain, then take the new back buffer
        with its two views and, with a depth buffer, create the depth texture and its two
        views. Every object held afterwards is new. */
    method OnResize(dimsNew: Int2)
      requires Ready() && Valid()
      requires dimsNew.x > 0 && dimsNew.y > 0
      modifies this, device
      ensures Ready() && Valid() && TargetsReady()
      ensures dims == dimsNew && chainDims == dimsNew
      ensures IdsWithin(old(device.issued), device.issued)
      ensures Settings() == old(Settings())
    {
      var dev := device;
      dims := dimsNew;
      ReleaseTargets();
      ResizeBuffers(dimsNew);
      CreateBackBufferTargets(dev);
      if hasDepthBuffer {
        CreateDepthTargets(dev, dimsNew);
      }
    }

    /** Stands for the subclass's frame rendering. */
    method OnRender()
      modifies this
      ensures framesRendered == old(framesRendered) + 1
      ensures hWnd == old(hWnd) && device == old(device) && swapChain == old(swapChain)
      ensures chainDims == old(chainDims) && dims == old(dims) && hasDepthBuffer == old(hasDepthBuffer)
      ensures backBuffer == old(backBuffer) && rtvSrgb == old(rtvSrgb) && rtvRaw == old(rtvRaw)
      ensures texDepth == old(texDepth) && dsv == old(dsv) && srvDepth == old(srvDepth)
      ensures depthDims == old(depthDims) && depthFormat == old(depthFormat) && quitPosted == old(quitPosted)
    {
      framesRendered := framesRendered + 1;
    }

    /** Destroys the window, once: the handle becomes null and stays null. DestroyWindow
        sends WM_DESTROY to the window procedure before it returns, so destroying a live
        window also posts the quit message. */
    method Shutdown()
      modifies this
      ensures hWnd == Null
      ensures quitPosted == (old(quitPosted) || old(hWnd).Live?)
      ensures old(hWnd) == Null ==> unchanged(this)
      ensures device == old(device) && swapChain == old(swapChain) && chainDims == old(chainDims) && dims == old(dims)
      ensures hasDepthBuffer == old(hasDepthBuffer)
      ensures backBuffer == old(backBuffer) && rtvSrgb == old(rtvSrgb) && rtvRaw == old(rtvRaw)
      ensures texDepth == old(texDepth) && dsv == old(dsv) && srvDepth == old(srvDepth)
      ensures depthDims == old(depthDims) && depthFormat == old(depthFormat)
      ensures framesRendered == old(framesRendered)
    {
      if hWnd.Live? {
        quitPosted := true;
        hWnd := Null;
      }
    }

    /** The new client size a size message reports. */
    static function NewSize(message: Message): Int2
      requires message.Size? || message.Sizing?
    {
      if message.Size? then SizeFromLParam(message.lParam) else ClientSize(message.clientRect)
    }

    /** Whether the message is a size message whose new size gets through the gate. */
    predicate Resizes(message: Message)
      reads this
    {
      (message.Size? || message.Sizing?) && ShouldResize(dims, NewSize(message))
    }

    /** The size messages: resize and render a frame when the gate lets the size through.
        OnResize asserts that the swap chain exists, so a size that gets through needs Init
        to have run. */
    method HandleSize(dimsNew: Int2)
      requires Valid() && (ShouldResize(dims, dimsNew) ==> Ready())
      modifies this, device
      ensures Valid()
      ensures ShouldResize(old(dims), dimsNew) ==>
        dims == dimsNew && chainDims == dimsNew && TargetsReady() && IdsWithin(old(device.issued), device.issued) &&
        framesRendered == old(framesRendered) + 1
      ensures !ShouldResize(old(dims), dimsNew) ==> unchanged(this) && (device != null ==> device.issued == old(device.issued))
      ensures hWnd == old(hWnd) && device == old(device) && swapChain == old(swapChain)
      ensures hasDepthBuffer == old(hasDepthBuffer) && quitPosted == old(quitPosted)
    {
      if ShouldResize(dims, dimsNew) {
        OnResize(dimsNew);
        OnRender();
      }
    }

    /** The window procedure: WM_CLOSE shuts the window down (which posts the quit message
        through WM_DESTROY when the window is live), WM_DESTROY posts the quit message,
        WM_SIZE and WM_SIZING pass the new client size through the resize gate;
        `handled` is false for the messages left to DefWindowProc. */
    method MsgProc(message: Message) returns (handled: bool)
      requires Valid() && (Resizes(message) ==> Ready())
      modifies this, device
      ensures Valid()
      ensures device == old(device) && swapChain == old(swapChain) && hasDepthBuffer == old(hasDepthBuffer)
      ensures handled <==> !message.Other?
      ensures message != Close ==> hWnd == old(hWnd)
      ensures message == Close ==> hWnd == Null
      ensures quitPosted == (old(quitPosted) || message == Destroy || (message == Close && old(hWnd).Live?))
      ensures (message.Size? || message.Sizing?) && ShouldResize(old(dims), NewSize(message)) ==>
        dims == NewSize(message) && chainDims == NewSize(message) && TargetsReady() &&
        IdsWithin(old(device.issued), device.issued) && framesRendered == old(framesRendered) + 1
      ensures (message.Size? || message.Sizing?) && !ShouldResize(old(dims), NewSize(message)) ==>
        unchanged(this) && (device != null ==> device.issued == old(device.issued))
      ensures !message.Size? && !message.Sizing? ==>
        (device != null ==> device.issued == old(device.issued)) && Targets() == old(Targets()) &&
        framesRendered == old(framesRendered)
    {
      match message {
        case Close =>
          Shutdown();
          handled := true;
        case Destroy =>
          quitPosted := true;
          handled := true;
        case Size(lParam) =>
          HandleSize(SizeFromLParam(lParam));
          handled := true;
        case Sizing(clientRect) =>
          HandleSize(ClientSize(clientRect));
          handled := true;
        case Other(_) =>
          handled := false;
      }
    }

    /** Dispatches the messages PeekMessage hands back in one pass of the main loop. Like
        the source's PeekMessage loop, it goes on dispatching the rest of the batch after a
        WM_CLOSE has shut the window down. */
    method DispatchAll(messages: seq<Message>)
      requires Ready() && Valid()
      modifies this, device
      ensures Ready() && Valid()
      ensures Close in messages ==> hWnd == Null
      ensures Close !in messages ==> hWnd == old(hWnd)
      ensures device == old(device) && swapChain == old(swapChain)
    {
      var j := 0;
      while j < |messages|
        invariant j <= |messages|
        invariant Ready() && Valid()
        invariant Close in messages[..j] ==> hWnd == Null
        invariant Close !in messages[..j] ==> hWnd == old(hWnd)
        invariant device == old(device) && swapChain == old(swapChain)
      {
        var _ := MsgProc(messages[j]);
        assert messages[..j + 1] == messages[..j] + [messages[j]];
        j := j + 1;
      }
      assert messages[..j] == messages;
    }

    /** The main loop: each pass dispatches the pending messages (`batches[i]` for pass i),
        stops if the window handle has become null, and renders a frame otherwise. The
        source loops forever while the window lives; here the passes end with the batches,
        and `closed` says whether the loop stopped on its own. */
    method MainLoop(batches: seq<seq<Message>>) returns (frames: nat, closed: bool)
      requires Ready() && Valid() && hWnd.Live?
      modifies this, device
      ensures Ready() && Valid()
      ensures closed <==> OpenBatches(batches) < |batches|
      ensures closed <==> hWnd == Null
      ensures frames == OpenBatches(batches)
    {
      frames, closed := 0, false;
      var i := 0;
      while i < |batches|
        invariant i <= |batches| && frames == i
        invariant Ready() && Valid() && hWnd.Live?
        invariant device == old(device)
        invariant forall k | 0 <= k < i :: Close !in batches[k]
        decreases |batches| - i
      {
        DispatchAll(batches[i]);
        if hWnd == Null {
          closed := true;
          OpenBatchesStop(batches, i);
          return;
        }
        OnRender();
        frames := frames + 1;
        i := i + 1;
      }
      OpenBatchesAll(batches);
    }
  }

  lemma {:induction false} OpenBatchesStop(batches: seq<seq<Message>>, i: nat)
    requires i < |batches| && Close in batches[i]
    requires forall k | 0 <= k < i :: Close !in batches[k]
    ensures OpenBatches(batches) == i
    decreases i
  {
    if i > 0 {
      OpenBatchesStop(batches[1..], i - 1);
    }
  }

  lemma {:induction false} OpenBatchesAll(batches: seq<seq<Message>>)
    requires forall k | 0 <= k < |batches| :: Close !in batches[k]
    ensures OpenBatches(batches) == |batches|
    decreases |batches|
  {
    if batches != [] {
      OpenBatchesAll(batches[1..]);
    }
  }
}
