/** The decisions of DefaultMainWindow that only branch on its state: which
    window messages OnMessage handles and what it does for them, what
    OnDefaultAction does in each UI mode, and what PreTranslateMessage takes
    out of the message loop. Each is a function of a View of the window and
    the message, and returns the calls the window makes, in order. */
module Messages {
  import opened Optional
  import opened Decimal
  import opened Tabbing

  /** ui_: which set of child controls the window shows. */
  datatype UiMode = ConnectToServer | ListPeers | Streaming

  /** The child controls, in the order CreateChildWindows creates them, which
      is also their z-order as siblings. */
  datatype Control = Label1 | Edit1 | Label2 | Edit2 | Button | ListBox

  const Children: seq<Control> := [Label1, Edit1, Label2, Edit2, Button, ListBox]

  /** Virtual-key codes PreTranslateMessage compares a WM_CHAR's wParam with. */
  const VK_TAB: nat := 0x09
  const VK_RETURN: nat := 0x0D
  const VK_ESCAPE: nat := 0x1B

  /** Notification codes (HIWORD of a WM_COMMAND's wParam). */
  const BN_CLICKED: nat := 0
  const LBN_DBLCLK: nat := 2

  /** A window message, with the parts of wParam/lParam the window reads. */
  datatype Message =
    | Create
    | NcDestroy
    | EraseBackground
    | Paint
    | SetFocus
    | Size
    | CtlColorStatic
      /** WM_COMMAND: notification code and the child control lParam names
          (None when lParam is not one of the children). */
    | Command(code: nat, sender: Option<Control>)
    | Close
    | Char(key: nat)
      /** UI_THREAD_CALLBACK, posted by QueueUIThreadCallback. */
    | ThreadCallback(id: int, data: int)
    | Other(code: nat)

  /** One row of the peer list box: its string and its LB_SETITEMDATA value. */
  datatype ListItem = ListItem(text: string, data: int)

  /** One entry of the Peers map, in the map's iteration order. */
  datatype Peer = Peer(id: int, name: string)

  const PeerListHeader: string := "List of currently connected peers:"

  /** A call the window makes: into the OS, or into the registered observer
      (the MainWindowCallback). */
  datatype Call =
    | PaintFrame
    | FocusControl(control: Control)
    | LayoutConnect(show: bool)
    | LayoutPeerList(show: bool)
    | ShowOkBox
    | PostButtonClick
    | PostCommand(message: Message)
    | DefWindowProc(message: Message)
    | OnDestroyed
    | StartLogin(server: string, port: int)
    | ConnectToPeer(id: int)
    | DisconnectFromServer
    | DisconnectFromCurrentPeer
    | CloseRequested
    | UiThreadCallback(id: int, data: int)
      /** A call made through a NULL callback_. */
    | NullObserverCall

  predicate IsObserverCall(c: Call) {
    c.StartLogin? || c.ConnectToPeer? || c.DisconnectFromServer? ||
    c.DisconnectFromCurrentPeer? || c.CloseRequested? || c.UiThreadCallback?
  }

  /** The LRESULT a message produces. */
  datatype LResult = Zero | TrueResult | WindowBrush | FromDefault(message: Message)

  /** The state OnMessage, OnDefaultAction and PreTranslateMessage read:
      ui_, whether callback_ is set, the texts in the two edit boxes, the rows
      of the list box and its current selection (None for LB_ERR). */
  datatype View = View(
    ui: UiMode,
    hasCallback: bool,
    serverText: string,
    portText: string,
    items: seq<ListItem>,
    selection: Option<nat>)

  /** What OnMessage returns, the LRESULT it stores, and the calls it makes. */
  datatype Reply = Reply(handled: bool, result: LResult, calls: seq<Call>)

  /** What PreTranslateMessage returns, whether it ran HandleTabbing, and the
      other calls it makes. */
  datatype Translation = Translation(consumed: bool, tab: bool, calls: seq<Call>)

  /** The port OnDefaultAction passes to StartLogin for a port text. */
  function PortValue(text: string): int {
    if |text| > 0 then Atoi(text) else 0
  }

  /** The item data LB_GETITEMDATA returns for the selected row, or None when
      LB_GETCURSEL returns LB_ERR. An index past the rows reads LB_ERR (-1). */
  function SelectedData(v: View): Option<int> {
    match v.selection
    case None => None
    case Some(i) => Some(if i < |v.items| then v.items[i].data else -1)
  }

  /** OnDefaultAction: log in, or connect to the selected peer. */
  function DefaultAction(v: View): (calls: seq<Call>)
    ensures |calls| <= 1
    ensures calls != [] ==> v.hasCallback
    ensures (calls != [] && calls[0].StartLogin?) <==> v.hasCallback && v.ui == ConnectToServer
    ensures calls != [] && calls[0].StartLogin? ==>
      calls[0].server == WindowText(v.serverText) &&
      calls[0].port == PortValue(WindowText(v.portText))
    ensures (calls != [] && calls[0].ConnectToPeer?) <==>
      v.hasCallback && v.ui == ListPeers && SelectedData(v).Some? && SelectedData(v).value != -1
    ensures calls != [] && calls[0].ConnectToPeer? ==> calls[0].id == SelectedData(v).value
    ensures calls == [ShowOkBox] <==> v.hasCallback && v.ui == Streaming
  {
    if !v.hasCallback then []
    else
      match v.ui
      case ConnectToServer =>
        [StartLogin(WindowText(v.serverText), PortValue(WindowText(v.portText)))]
      case ListPeers =>
        (match SelectedData(v)
         case None => []
         case Some(id) => if id != -1 then [ConnectToPeer(id)] else [])
      case Streaming => [ShowOkBox]
  }

  /** The messages OnMessage reports as handled. */
  predicate Handles(m: Message) {
    m.EraseBackground? || m.Paint? || m.SetFocus? || m.CtlColorStatic? || m.Command?
  }

  /** A WM_COMMAND that OnMessage turns into OnDefaultAction: a click on the
      Connect button or a double click in the list box. */
  predicate IsActivation(m: Message) {
    m.Command? &&
    ((m.sender == Some(Button) && m.code == BN_CLICKED) ||
     (m.sender == Some(ListBox) && m.code == LBN_DBLCLK))
  }

  /** OnMessage: whether the window handles `m` itself, the value it returns,
      and the calls it makes into the OS and the observer. */
  function HandleMessage(v: View, m: Message): (r: Reply)
    ensures r.handled <==> Handles(m)
    ensures !r.result.FromDefault?
    ensures r.result != Zero <==> m.EraseBackground? || m.CtlColorStatic?
    ensures forall i :: 0 <= i < |r.calls| && IsObserverCall(r.calls[i]) ==> v.hasCallback
    ensures m.Command? ==> r.calls == if IsActivation(m) then DefaultAction(v) else []
    ensures CloseRequested in r.calls <==> m.Close? && v.hasCallback
    ensures |r.calls| <= 1
    ensures forall c :: c in r.calls ==> !c.OnDestroyed? && !c.DefWindowProc?
    ensures !IsActivation(m) ==> forall c :: c in r.calls ==> !c.StartLogin? && !c.ConnectToPeer? && !c.ShowOkBox?
  {
    match m
    case EraseBackground => Reply(true, TrueResult, [])
    case Paint => Reply(true, Zero, [PaintFrame])
    case SetFocus =>
      Reply(true, Zero,
        if v.ui == ConnectToServer then [FocusControl(Edit1)]
        else if v.ui == ListPeers then [FocusControl(ListBox)]
        else [])
    case Size =>
      Reply(false, Zero,
        if v.ui == ConnectToServer then [LayoutConnect(true)]
        else if v.ui == ListPeers then [LayoutPeerList(true)]
        else [])
    case CtlColorStatic => Reply(true, WindowBrush, [])
    case Command(code, sender) =>
      Reply(true, Zero,
        if sender == Some(Button) then (if code == BN_CLICKED then DefaultAction(v) else [])
        else if sender == Some(ListBox) then (if code == LBN_DBLCLK then DefaultAction(v) else [])
        else [])
    case Close => Reply(false, Zero, if v.hasCallback then [CloseRequested] else [])
    case _ => Reply(false, Zero, [])
  }

  /** PreTranslateMessage; `toWindow` is msg->hwnd != NULL. */
  function PreTranslate(v: View, toWindow: bool, m: Message): (t: Translation)
    ensures t.consumed <==>
      m == Char(VK_TAB) || m == Char(VK_RETURN) || (!toWindow && m.ThreadCallback?)
    ensures t.tab <==> m == Char(VK_TAB)
    ensures m == Char(VK_RETURN) ==> t.calls == DefaultAction(v)
    ensures m == Char(VK_ESCAPE) ==>
      (t.calls != [] <==> v.hasCallback) &&
      (v.hasCallback ==> t.calls == [if v.ui == Streaming then DisconnectFromCurrentPeer else DisconnectFromServer])
    ensures NullObserverCall in t.calls <==> !v.hasCallback && !toWindow && m.ThreadCallback?
    ensures m.ThreadCallback? && !toWindow && v.hasCallback ==> t.calls == [UiThreadCallback(m.id, m.data)]
    ensures m.ThreadCallback? && toWindow ==> t == Translation(false, false, [])
    ensures !m.Char? && !m.ThreadCallback? ==> t == Translation(false, false, [])
    ensures m.Char? && m.key !in {VK_TAB, VK_RETURN, VK_ESCAPE} ==> t == Translation(false, false, [])
  {
    match m
    case Char(key) =>
      if key == VK_TAB then Translation(true, true, [])
      else if key == VK_RETURN then Translation(true, false, DefaultAction(v))
      else if key == VK_ESCAPE then
        Translation(false, false,
          if !v.hasCallback then []
          else if v.ui == Streaming then [DisconnectFromCurrentPeer]
          else [DisconnectFromServer])
      else Translation(false, false, [])
    case ThreadCallback(id, data) =>
      if !toWindow then
        Translation(true, false, [if v.hasCallback then UiThreadCallback(id, data) else NullObserverCall])
      else Translation(false, false, [])
    case _ => Translation(false, false, [])
  }

  /** The rows SwitchToPeerList leaves in the list box: the header row with
      item data -1, then one row per peer, in the map's order. */
  function PeerRows(peers: seq<Peer>): (rows: seq<ListItem>)
  {
    [ListItem(PeerListHeader, -1)] + seq(|peers|, i requires 0 <= i < |peers| => ListItem(peers[i].name, peers[i].id))
  }

  /** Whether LayoutConnectUI / LayoutPeerListUI leave a child shown in a mode. */
  predicate ShownIn(ui: UiMode, c: Control) {
    match ui
    case ConnectToServer => c != ListBox
    case ListPeers => c == ListBox
    case Streaming => false
  }

  /** The edit boxes and the button are created with WS_TABSTOP; the labels
      and the list box are not. */
  predicate HasTabStopStyle(c: Control) {
    c == Edit1 || c == Edit2 || c == Button
  }

  /** The children as HandleTabbing sees them once the window is in `ui`. */
  function Siblings(ui: UiMode): (sibs: seq<Sibling>)
    ensures |sibs| == |Children|
  {
    seq(|Children|, i requires 0 <= i < |Children| =>
      Sibling(ShownIn(ui, Children[i]), HasTabStopStyle(Children[i])))
  }

  /** Rows the list box gets from the same peers do not depend on what it
      held before, and each peer is at its position after the header. */
  lemma PeerRowsLayout(peers: seq<Peer>, i: nat)
    requires i < |peers|
    ensures |PeerRows(peers)| == |peers| + 1
    ensures PeerRows(peers)[0] == ListItem(PeerListHeader, -1)
    ensures PeerRows(peers)[i + 1] == ListItem(peers[i].name, peers[i].id)
  {
  }

  /** The header row never connects: with the header selected, the default
      action in the peer list calls nothing. */
  lemma HeaderRowNeverConnects(v: View, peers: seq<Peer>)
    requires v.ui == ListPeers && v.items == PeerRows(peers) && v.selection == Some(0)
    ensures DefaultAction(v) == []
  {
  }

  /** The double click SwitchToPeerList posts for auto-call, dispatched while
      the list is as SwitchToPeerList left it, connects to the last peer. */
  lemma AutoCallConnectsToLastPeer(v: View, peers: seq<Peer>)
    requires |peers| > 0 && v.hasCallback && v.ui == ListPeers
    requires v.items == PeerRows(peers) && v.selection == Some(|v.items| - 1)
    requires peers[|peers| - 1].id != -1
    ensures HandleMessage(v, Command(LBN_DBLCLK, Some(ListBox))).calls ==
      [ConnectToPeer(peers[|peers| - 1].id)]
  {
    assert v.items[|peers|] == ListItem(peers[|peers| - 1].name, peers[|peers| - 1].id);
  }

  /** A double click on the row of peer i, picked by the user in the list
      SwitchToPeerList filled, connects to that peer. */
  lemma PickedRowConnects(v: View, peers: seq<Peer>, i: nat)
    requires v.hasCallback && v.ui == ListPeers && v.items == PeerRows(peers)
    requires i < |peers| && v.selection == Some(i + 1) && peers[i].id != -1
    ensures HandleMessage(v, Command(LBN_DBLCLK, Some(ListBox))).calls == [ConnectToPeer(peers[i].id)]
  {
    assert v.items[i + 1] == ListItem(peers[i].name, peers[i].id);
  }

  /** Logging in with the edit boxes as CreateChildWindows filled them passes
      the constructor's server and port to StartLogin. */
  lemma LoginUsesConstructorValues(v: View, server: string, port: int)
    requires v.hasCallback && v.ui == ConnectToServer
    requires v.serverText == server && |server| < MaxPath
    requires v.portText == PortText(port) && -99999999 <= port <= 999999999
    ensures DefaultAction(v) == [StartLogin(server, port)]
  {
    PortTextRoundTrip(port);
  }

  /** In the connect UI, tab goes edit box, edit box, button and back to the
      first edit box; shift-tab from the first edit box goes to the button. */
  lemma ConnectUiTabOrder()
    ensures HasTabStop(Siblings(ConnectToServer))
    ensures NextTabStop(Siblings(ConnectToServer), 1, false) == 3
    ensures NextTabStop(Siblings(ConnectToServer), 3, false) == 4
    ensures NextTabStop(Siblings(ConnectToServer), 4, false) == 1
    ensures NextTabStop(Siblings(ConnectToServer), 1, true) == 4
  {
    var sibs := Siblings(ConnectToServer);
    assert Eligible(sibs[1]) && !Eligible(sibs[2]) && Eligible(sibs[3]);
    assert Eligible(sibs[4]) && !Eligible(sibs[0]) && !Eligible(sibs[5]);
    TabForward(sibs, 1, 3);
    TabForward(sibs, 3, 4);
    TabWrapsToFirst(sibs, 4, 1);
    ShiftTabWrapsToLast(sibs, 1, 4);
  }

  /** Outside the connect UI no child is both shown and a tab stop. */
  lemma NoTabStopOutsideConnectUI(ui: UiMode)
    requires ui != ConnectToServer
    ensures !HasTabStop(Siblings(ui))
  {
    var sibs := Siblings(ui);
    forall i | 0 <= i < |sibs| ensures !Eligible(sibs[i]) {
      assert sibs[i] == Sibling(ShownIn(ui, Children[i]), HasTabStopStyle(Children[i]));
    }
  }
}
