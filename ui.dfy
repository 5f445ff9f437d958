/**
 * The pure helpers of the terminal renderer (src/ui.rs): the fixed-width SSID
 * column, the security label, the signal glyphs and colour, the busy-status
 * text, the placement of the modal box, the password mask and the colour of
 * a message box. Drawing with ratatui itself is not part of this model.
 */
module Ui {
  import opened Wrappers
  import opened Text
  import opened AppModel
  import Nmcli
  import Messages

  /** The four frames of the busy spinner. */
  const Spinner: seq<char> := ['◐', '◓', '◑', '◒']

  /** Width of the SSID column in the network list. */
  const SsidWidth: nat := 28

  datatype Color = Green | Yellow | Red

  // ---------------------------------------------------------------------------
  // SSID column
  // ---------------------------------------------------------------------------

  /** `format!("{:<width$}", s)`: left-aligned, filled with spaces up to `width` characters, never cut. */
  function PadRight(s: string, width: nat): (r: string)
    ensures |r| == if |s| <= width then width else |s|
    ensures r[..|s|] == s
    ensures forall i :: |s| <= i < |r| ==> r[i] == ' '
  {
    if |s| >= width then s else s + Repeat(' ', width - |s|)
  }

  /**
   * `truncate_pad`: exactly `maxLen` characters, the text cut to `maxLen - 1`
   * characters plus an ellipsis when it is too long. A too-long text with
   * `maxLen == 0` makes the source index with an underflowed bound, hence the
   * precondition.
   */
  function TruncatePad(s: string, maxLen: nat): (r: string)
    requires |s| <= maxLen || maxLen > 0
    ensures |r| == maxLen
    ensures |s| <= maxLen ==> r[..|s|] == s && forall i :: |s| <= i < maxLen ==> r[i] == ' '
    ensures |s| > maxLen ==> r[..maxLen - 1] == s[..maxLen - 1] && r[maxLen - 1] == '…'
  {
    if |s| <= maxLen then PadRight(s, maxLen) else PadRight(s[..maxLen - 1] + ['…'], maxLen)
  }

  /** Padding an already padded cell changes nothing. */
  lemma TruncatePadIdempotent(s: string, maxLen: nat)
    requires |s| <= maxLen || maxLen > 0
    ensures TruncatePad(TruncatePad(s, maxLen), maxLen) == TruncatePad(s, maxLen)
  {
  }

  lemma {:induction false} TrailingSpacesTrimmed(s: string, k: nat)
    requires s == [] || !IsWhitespace(s[|s| - 1])
    ensures TrimEnd(s + Repeat(' ', k)) == s
  {
    if k == 0 {
      assert s + Repeat(' ', k) == s;
    } else {
      var t := s + Repeat(' ', k);
      assert t[..|t| - 1] == s + Repeat(' ', k - 1);
      TrailingSpacesTrimmed(s, k - 1);
    }
  }

  /** A name that fits the column only gains trailing blanks: trimming the cell gives it back. */
  lemma TruncatePadOnlyPads(s: string, maxLen: nat)
    requires |s| <= maxLen
    requires s == [] || !IsWhitespace(s[|s| - 1])
    ensures TrimEnd(TruncatePad(s, maxLen)) == s
  {
    TrailingSpacesTrimmed(s, maxLen - |s|);
  }

  // ---------------------------------------------------------------------------
  // Security label
  // ---------------------------------------------------------------------------

  /** `simplify_security`: a list naming both WPA2 and WPA3 shows as WPA3, an 802.1X one as Enterprise. */
  function SimplifySecurity(sec: string): (r: string)
    ensures !(Contains(r, "WPA3") && Contains(r, "WPA2"))
    ensures !Contains(sec, "802.1X") && !(Contains(sec, "WPA3") && Contains(sec, "WPA2")) ==> r == sec
    ensures sec != [] ==> r != []
    ensures Contains(sec, "WPA3") && Contains(sec, "WPA2") ==> r == "WPA3"
    ensures !(Contains(sec, "WPA3") && Contains(sec, "WPA2")) && Contains(sec, "802.1X") ==> r == "Enterprise"
  {
    if Contains(sec, "WPA3") && Contains(sec, "WPA2") then
      MissingCharNotContained("WPA3", "WPA2", '2');
      "WPA3"
    else if Contains(sec, "802.1X") then
      MissingCharNotContained("Enterprise", "WPA3", 'W');
      "Enterprise"
    else sec
  }

  /** Simplifying a label a second time changes nothing. */
  lemma SimplifySecurityIdempotent(sec: string)
    ensures SimplifySecurity(SimplifySecurity(sec)) == SimplifySecurity(sec)
  {
    var r := SimplifySecurity(sec);
    if r == "WPA3" {
      MissingCharNotContained("WPA3", "802.1X", '8');
    } else if r == "Enterprise" {
      MissingCharNotContained("Enterprise", "802.1X", '8');
    }
  }

  predicate IsOpen(sec: string)
  {
    sec == [] || sec == "--"
  }

  /** The security column: open networks (no security or `--`) say Open; the label is never blank. */
  function SecurityLabel(sec: string): (r: string)
    ensures IsOpen(sec) ==> r == "Open"
    ensures !IsOpen(sec) ==> r == SimplifySecurity(sec)
    ensures r != []
  {
    if IsOpen(sec) then "Open" else SimplifySecurity(sec)
  }

  // ---------------------------------------------------------------------------
  // Signal strength
  // ---------------------------------------------------------------------------

  const FullBars: string := "▂▄▆█"

  /** How many bars a signal earns: one per 20 points up to four, none outside 0..=100. */
  function BarCount(signal: U8): (n: nat)
    ensures n <= 4
  {
    if signal > 100 then 0 else if signal / 20 > 4 then 4 else signal / 20
  }

  /** `signal_bars`: four cells, the first `BarCount(signal)` of them rising bars and the rest blank. */
  function SignalBars(signal: U8): (r: string)
    ensures |r| == 4
    ensures forall i :: 0 <= i < 4 ==> r[i] == if i < BarCount(signal) then FullBars[i] else ' '
  {
    if 80 <= signal <= 100 then "▂▄▆█"
    else if 60 <= signal <= 79 then "▂▄▆ "
    else if 40 <= signal <= 59 then "▂▄  "
    else if 20 <= signal <= 39 then "▂   "
    else "    "
  }

  /** A stronger signal (within nmcli's 0..=100) never shows fewer bars. */
  lemma BarsMonotone(a: U8, b: U8)
    requires a <= b <= 100
    ensures BarCount(a) <= BarCount(b)
  {
  }

  /** `signal_color`. */
  function SignalColor(signal: U8): (c: Color)
    ensures c == Green <==> 80 <= signal <= 100
    ensures c == Yellow <==> 50 <= signal <= 79
  {
    if 80 <= signal <= 100 then Green
    else if 50 <= signal <= 79 then Yellow
    else Red
  }

  /** The colour agrees with the bars: green exactly when all four show, red only with two or fewer. */
  lemma ColorAgreesWithBars(signal: U8)
    ensures SignalColor(signal) == Green <==> SignalBars(signal) == FullBars
    ensures SignalColor(signal) == Red ==> BarCount(signal) <= 2
    ensures SignalColor(signal) == Yellow ==> 2 <= BarCount(signal) <= 3
  {
    if SignalBars(signal) == FullBars {
      assert SignalBars(signal)[3] == FullBars[3];
    }
  }

  // ---------------------------------------------------------------------------
  // Busy status
  // ---------------------------------------------------------------------------

  function Verb(bg: BgStatus): (v: string)
    requires bg != Idle
    ensures v != []
  {
    match bg
    case Scanning => "Scanning"
    case Connecting => "Connecting"
    case Disconnecting => "Disconnecting"
    case Forgetting => "Forgetting"
  }

  /**
   * `bg_status_text`: nothing while idle, otherwise the spinner frame, a
   * space, the activity and an ellipsis of three dots. The source indexes the
   * four-frame spinner with the frame number, which `AppModel.Inv` keeps below 4.
   */
  function BgStatusText(bg: BgStatus, frame: nat): (r: Option<string>)
    requires frame < 4
    ensures r.None? <==> bg == Idle
    ensures r.Some? ==> |r.value| > 5 && r.value[0] == Spinner[frame] && r.value[1] == ' ' && r.value[|r.value| - 3..] == "..."
    ensures r.Some? ==> r.value[2..|r.value| - 3] == Verb(bg)
  {
    if bg == Idle then None else Some([Spinner[frame], ' '] + Verb(bg) + "...")
  }

  /** Different activities, or different spinner frames, never show the same text. */
  lemma BgStatusTextDistinct(b1: BgStatus, f1: nat, b2: BgStatus, f2: nat)
    requires f1 < 4 && f2 < 4
    requires BgStatusText(b1, f1) == BgStatusText(b2, f2)
    ensures b1 == b2
    ensures b1 != Idle ==> f1 == f2
  {
    if b1 != Idle {
      var t := BgStatusText(b1, f1).value;
      assert t[2] == Verb(b1)[0] && t[2] == Verb(b2)[0];
      assert Spinner[f1] == t[0] == Spinner[f2];
    }
  }

  /** In every reachable application state the status text can be drawn. */
  lemma StatusTextDrawable(s: State)
    requires Inv(s)
    ensures BgStatusText(s.bg, s.spinner).Some? <==> s.bg != Idle
  {
  }

  // ---------------------------------------------------------------------------
  // Modal box
  // ---------------------------------------------------------------------------

  type U16 = x: int | 0 <= x < 0x1_0000

  /** `u16::saturating_sub`. */
  function SaturatingSub(a: U16, b: U16): (r: U16)
    ensures a >= b ==> r == a - b
    ensures a < b ==> r == 0
  {
    if a >= b then a - b else 0
  }

  datatype Rect = Rect(x: U16, y: U16, width: U16, height: U16)

  function ModalHeight(modal: Modal): U16
  {
    match modal
    case PasswordInput => 7
    case ConfirmDisconnect => 6
    case ConfirmForget(_) => 6
    case Message(_) => 6
  }

  /**
   * `draw_modal`'s box on a `width` by `height` screen: at most 50 columns and
   * two columns clear of each side, centred, with the modal's own height.
   */
  function ModalRect(width: U16, height: U16, modal: Modal): (r: Rect)
    ensures r.width <= 50 && r.height == ModalHeight(modal)
    ensures r.x + r.width <= width
    ensures width >= 4 ==> r.x >= 2 && r.x + r.width + 2 <= width
    ensures width >= 54 ==> r.width == 50
    ensures width - (r.x + r.width) - r.x in {0, 1}
    ensures height >= r.height ==> r.y + r.height <= height && height - (r.y + r.height) - r.y in {0, 1}
    ensures height < r.height ==> r.y == 0
  {
    var w := if 50 <= SaturatingSub(width, 4) then 50 else SaturatingSub(width, 4);
    var h := ModalHeight(modal);
    Rect(SaturatingSub(width, w) / 2, SaturatingSub(height, h) / 2, w, h)
  }

  // ---------------------------------------------------------------------------
  // Password field
  // ---------------------------------------------------------------------------

  /** The password field as the source draws it: hidden, one dot per UTF-8 byte of the password. */
  function PasswordMaskAsWritten(password: string, visible: bool): (r: string)
    ensures visible ==> r == password
    ensures !visible ==> |r| == Utf8Len(password) && forall i :: 0 <= i < |r| ==> r[i] == '●'
    ensures !visible ==> |r| >= |password|
  {
    Utf8LenVsChars(password);
    if visible then password else Repeat('●', Utf8Len(password))
  }

  /** A one-character password with a two-byte character shows two dots. */
  lemma PasswordMaskCountsBytes()
    ensures |PasswordMaskAsWritten("é", false)| == 2 != |"é"|
  {
    assert Utf8Len("é") == Utf8Len([]) + Utf8Width('é');
  }

  /** The password field: the text itself when shown, otherwise one dot per character typed. */
  function PasswordMask(password: string, visible: bool): (r: string)
    ensures |r| == |password|
    ensures visible ==> r == password
    ensures !visible ==> forall i :: 0 <= i < |r| ==> r[i] == '●'
  {
    if visible then password else Repeat('●', |password|)
  }

  /** The two agree on every ASCII password, which is why the difference only shows with other characters. */
  lemma PasswordMaskAgreesOnAscii(password: string, visible: bool)
    ensures PasswordMask(password, visible) == PasswordMaskAsWritten(password, visible) <==> visible || IsAscii(password)
  {
    Utf8LenVsChars(password);
  }

  /** Each key typed into the hidden field adds exactly one dot. */
  lemma TypingAddsOneDot(s: State, c: char)
    requires s.modal == Some(PasswordInput)
    ensures |PasswordMask(OnKey(s, Key(Char(c), false)).password, s.passwordVisible)|
            == |PasswordMask(s.password, s.passwordVisible)| + 1
  {
  }

  // ---------------------------------------------------------------------------
  // Message box
  // ---------------------------------------------------------------------------

  /** The colour of a message box: green for a success, yellow for "already", red for anything else. */
  function MessageColor(msg: string): (c: Color)
    ensures c == Green <==> "Connected" <= msg || "Disconnected" <= msg || "Forgot" <= msg
    ensures c == Yellow <==> !("Connected" <= msg || "Disconnected" <= msg || "Forgot" <= msg) && "Already" <= msg
    ensures c == Red <==> !("Connected" <= msg || "Disconnected" <= msg || "Forgot" <= msg || "Already" <= msg)
  {
    if "Connected" <= msg || "Disconnected" <= msg || "Forgot" <= msg then Green
    else if "Already" <= msg then Yellow
    else Red
  }

  /** Every success message of connect, disconnect and forget is shown green. */
  lemma SuccessMessagesGreen(ssid: string, name: string, out: Nmcli.Outcome)
    ensures Nmcli.Connect(ssid, out).Ok? ==> MessageColor(Nmcli.Connect(ssid, out).value) == Green
    ensures Nmcli.Disconnect(out).Ok? ==> MessageColor(Nmcli.Disconnect(out).value) == Green
    ensures Nmcli.Forget(name, out).Ok? ==> MessageColor(Nmcli.Forget(name, out).value) == Green
  {
    assert "Connected" <= Nmcli.ConnectedText(ssid);
    assert "Forgot" <= Nmcli.ForgotText(name);
    assert "Disconnected" <= Nmcli.DisconnectedText;
  }

  /** Selecting the network already in use shows a yellow box. */
  lemma AlreadyConnectedYellow()
    ensures MessageColor(AlreadyConnectedText) == Yellow
  {
    var t := AlreadyConnectedText;
    assert t[0] == 'A';
    assert t[..7] == "Already";
  }

  /** A text is red as soon as its first two characters rule out the green and yellow openings. */
  lemma RedByOpening(t: string)
    requires |t| >= 2
    requires t[0] !in "CDFA" || (t[0] == 'A' && t[1] != 'l')
    ensures MessageColor(t) == Red
  {
    if t[0] == 'A' {
      assert "Already"[1] == 'l';
    }
  }

  /** The first four fixed texts of the error table are shown red. */
  lemma EarlyRuleTextsRed(i: nat)
    requires i < 4
    ensures MessageColor(Nmcli.Rules[i].says) == Red
  {
    if i == 0 {
      RedByOpening(Messages.NotFoundText);
    } else if i == 1 {
      RedByOpening(Messages.PasswordRequiredText);
    } else if i == 2 {
      RedByOpening(Messages.NoAdapterText);
    } else {
      RedByOpening(Messages.NotRunningText);
    }
  }

  /** The last four fixed texts of the error table are shown red. */
  lemma LateRuleTextsRed(i: nat)
    requires 4 <= i < |Nmcli.Rules|
    ensures MessageColor(Nmcli.Rules[i].says) == Red
  {
    if i == 4 {
      RedByOpening(Messages.ConnectionGoneText);
    } else if i == 5 {
      RedByOpening(Messages.IncorrectPasswordText);
    } else if i == 6 {
      RedByOpening(Messages.PermissionText);
    } else {
      RedByOpening(Messages.UnknownText);
    }
  }

  /** Every error the classifier rewrites is shown red. */
  lemma ClassifiedErrorsRed(msg: string)
    requires Nmcli.FirstMatch(Nmcli.Rules, msg, 0).Some?
    ensures MessageColor(Nmcli.FriendlyError(msg)) == Red
  {
    Nmcli.FriendlyErrorIsFirstMatch(msg);
    var i := Nmcli.FirstMatch(Nmcli.Rules, msg, 0).value;
    if i < 4 {
      EarlyRuleTextsRed(i);
    } else {
      LateRuleTextsRed(i);
    }
  }
}
