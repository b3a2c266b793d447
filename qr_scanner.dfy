/** The QR scanner overlay: what a decoded scan does (nothing for an empty
    result, a same-window redirect for text starting with "http", a new tab for
    anything else), which camera it asks for, and the error message it shows.
    The redirects and tab openings are recorded as actions instead of performed. */
module QrScanner {
  import opened JsRuntime

  /** What the decoding library hands `onScan` when it is not `null`. */
  datatype ScanData = ScanData(text: string)

  /** `window.location.href = url` or `window.open(url, '_blank')`. */
  datatype Action = Redirect(url: string) | OpenInNewTab(url: string)

  /** The decision in `handleScan`. */
  function ScanAction(data: Option<ScanData>): (a: Option<Action>)
    ensures a.None? <==> data.None? || data.value.text == ""
    ensures a.Some? ==> a.value.url == data.value.text
    ensures a.Some? ==> (a.value.Redirect? <==> StartsWith(data.value.text, "http"))
  {
    if data.Some? && data.value.text != "" then
      if StartsWith(data.value.text, "http") then Some(Redirect(data.value.text))
      else Some(OpenInNewTab(data.value.text))
    else None
  }

  /** The actions a scan adds: none, or exactly one. */
  function ScanActions(data: Option<ScanData>): (acts: seq<Action>)
    ensures |acts| <= 1
    ensures |acts| == 1 <==> data.Some? && data.value.text != ""
  {
    match ScanAction(data)
    case None => []
    case Some(a) => [a]
  }

  /** The prefix test is textual and case-sensitive: "session" and other words open
      a new tab, a URL redirects, and so does any text that merely starts with "http". */
  lemma ScanExamples()
    ensures ScanAction(Some(ScanData("https://example.com"))) == Some(Redirect("https://example.com"))
    ensures ScanAction(Some(ScanData("session"))) == Some(OpenInNewTab("session"))
    ensures ScanAction(Some(ScanData("httpish"))) == Some(Redirect("httpish"))
    ensures ScanAction(Some(ScanData("HTTP://EXAMPLE.COM"))) == Some(OpenInNewTab("HTTP://EXAMPLE.COM"))
    ensures ScanAction(Some(ScanData(""))) == None && ScanAction(None) == None
  {
    assert StartsWith("https://example.com", "http") by {
      assert "https://example.com"[..4] == "http";
    }
    assert StartsWith("httpish", "http") by {
      assert "httpish"[..4] == "http";
    }
    assert !StartsWith("session", "http") by {
      assert "session"[0] != 'h';
    }
    assert !StartsWith("HTTP://EXAMPLE.COM", "http") by {
      assert "HTTP://EXAMPLE.COM"[0] != 'h';
    }
  }

  datatype FacingMode = Environment | User

  /** `toggleCamera`'s new mode. */
  function Toggled(mode: FacingMode): (next: FacingMode)
    ensures next != mode
  {
    if mode == Environment then User else Environment
  }

  /** Toggling twice gives the mode back. */
  lemma ToggleTwice(mode: FacingMode)
    ensures Toggled(Toggled(mode)) == mode
  {
  }

  /** The button names the camera the toggle switches to. */
  function CameraLabel(mode: FacingMode): (name: string)
    ensures name == "Front" <==> mode == Environment
    ensures name == "Back" <==> mode == User
  {
    assert "Front"[0] != "Back"[0];
    if mode == Environment then "Front" else assert mode == User; "Back"
  }

  const CameraErrorMessage: string := "Error accessing camera. Please ensure camera permissions are granted."

  /** The scanner component: its `useState` values and the actions it took. */
  class Scanner {
    var error: Option<string>
    var facingMode: FacingMode
    var actions: seq<Action>

    constructor ()
      ensures error == None && facingMode == Environment && actions == []
    {
      error := None;
      facingMode := Environment;
      actions := [];
    }

    /** `handleScan`: at most one action, the rest of the state untouched. */
    method HandleScan(data: Option<ScanData>)
      modifies this
      ensures actions == old(actions) + ScanActions(data)
      ensures error == old(error) && facingMode == old(facingMode)
    {
      if data.Some? && data.value.text != "" {
        if StartsWith(data.value.text, "http") {
          actions := actions + [Redirect(data.value.text)];
        } else {
          actions := actions + [OpenInNewTab(data.value.text)];
        }
      }
    }

    /** `handleError`: whatever the error, the fixed camera-permission message. The
        message is never cleared, and scanning goes on. */
    method HandleError()
      modifies this
      ensures error == Some(CameraErrorMessage)
      ensures facingMode == old(facingMode) && actions == old(actions)
    {
      error := Some(CameraErrorMessage);
    }

    method ToggleCamera()
      modifies this
      ensures facingMode == Toggled(old(facingMode))
      ensures error == old(error) && actions == old(actions)
    {
      facingMode := if facingMode == Environment then User else Environment;
    }

    /** The switch button's text. */
    function ButtonText(): (text: string)
      reads this
      ensures text == "Switch Camera (Front)" <==> facingMode == Environment
      ensures text == "Switch Camera (Back)" <==> facingMode == User
    {
      "Switch Camera (" + CameraLabel(facingMode) + ")"
    }
  }
}
