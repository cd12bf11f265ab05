/** DefaultMainWindow: the window procedure with its re-entrant dispatch and
    deferred destruction, the UI mode switches that refill the peer list, and
    the message-loop hook that handles tab, enter and escape. */
module MainWindow {
  import opened Optional
  import opened Decimal
  import opened Tabbing
  import opened Messages

  type Hwnd = nat

  /** A message the OS dispatches to the window procedure, together with the
      messages it dispatches to the same window re-entrantly while this one is
      being processed: from inside OnMessage (for instance the WM_DESTROY and
      WM_NCDESTROY that DestroyWindow sends from an observer's Close) and from
      inside DefWindowProc. */
  datatype Dispatch = Dispatch(message: Message, duringHandler: seq<Dispatch>, duringDefault: seq<Dispatch>)

  /** Whether WndProc passes a message for an attached instance on to
      DefWindowProc: WM_NCDESTROY never, the rest when OnMessage returns false. */
  predicate ReachesDefault(m: Message) {
    !m.NcDestroy? && !Handles(m)
  }

  /** Whether a WM_NCDESTROY reaches the attached instance while d is dispatched. */
  predicate DestroysWithin(d: Dispatch)
    decreases d
  {
    d.message.NcDestroy?
    || (exists i :: 0 <= i < |d.duringHandler| && DestroysWithin(d.duringHandler[i]))
    || (ReachesDefault(d.message) &&
        exists i :: 0 <= i < |d.duringDefault| && DestroysWithin(d.duringDefault[i]))
  }

  /** The calls an attached instance makes while d is dispatched, apart from
      the final OnDestroyed of an outermost dispatch. */
  function Trace(v: View, d: Dispatch): seq<Call>
    decreases d, 1
  {
    HandleMessage(v, d.message).calls
    + TraceAll(v, d, d.duringHandler)
    + (if ReachesDefault(d.message)
       then [DefWindowProc(d.message)] + TraceAll(v, d, d.duringDefault)
       else [])
  }

  /** Trace of the nested dispatches ds of `parent`, one after the other. */
  function TraceAll(v: View, ghost parent: Dispatch, ds: seq<Dispatch>): seq<Call>
    requires forall i :: 0 <= i < |ds| ==> ds[i] < parent
    decreases parent, 0, |ds|
  {
    if ds == [] then []
    else TraceAll(v, parent, ds[..|ds| - 1]) + Trace(v, ds[|ds| - 1])
  }

  /** No nested dispatch notifies OnDestroyed: it is left to the outermost one. */
  lemma {:induction false} TraceNeverNotifies(v: View, d: Dispatch)
    ensures OnDestroyed !in Trace(v, d)
    decreases d, 1
  {
    TraceAllNeverNotifies(v, d, d.duringHandler);
    TraceAllNeverNotifies(v, d, d.duringDefault);
  }

  lemma {:induction false} TraceAllNeverNotifies(v: View, parent: Dispatch, ds: seq<Dispatch>)
    requires forall i :: 0 <= i < |ds| ==> ds[i] < parent
    ensures OnDestroyed !in TraceAll(v, parent, ds)
    decreases parent, 0, |ds|
  {
    if ds != [] {
      TraceAllNeverNotifies(v, parent, ds[..|ds| - 1]);
      TraceNeverNotifies(v, ds[|ds| - 1]);
    }
  }

  /** WM_NCDESTROY never reaches DefWindowProc, and every message that does
      reach it is one OnMessage left unhandled. */
  lemma {:induction false} DefaultOnlyForUnhandled(v: View, d: Dispatch, m: Message)
    requires DefWindowProc(m) in Trace(v, d)
    ensures !m.NcDestroy? && !Handles(m)
    decreases d, 1
  {
    var h := HandleMessage(v, d.message).calls;
    assert DefWindowProc(m) !in h;
    if DefWindowProc(m) in TraceAll(v, d, d.duringHandler) {
      DefaultOnlyForUnhandledAll(v, d, d.duringHandler, m);
    } else if ReachesDefault(d.message) && DefWindowProc(m) in TraceAll(v, d, d.duringDefault) {
      DefaultOnlyForUnhandledAll(v, d, d.duringDefault, m);
    }
  }

  lemma {:induction false} DefaultOnlyForUnhandledAll(v: View, parent: Dispatch, ds: seq<Dispatch>, m: Message)
    requires forall i :: 0 <= i < |ds| ==> ds[i] < parent
    requires DefWindowProc(m) in TraceAll(v, parent, ds)
    ensures !m.NcDestroy? && !Handles(m)
    decreases parent, 0, |ds|
  {
    if DefWindowProc(m) in TraceAll(v, parent, ds[..|ds| - 1]) {
      DefaultOnlyForUnhandledAll(v, parent, ds[..|ds| - 1], m);
    } else {
      DefaultOnlyForUnhandled(v, ds[|ds| - 1], m);
    }
  }

  /** One level of Trace and DestroysWithin: the handler's calls and
      dispatches, then, for a message that reaches it, DefWindowProc and its
      dispatches. */
  lemma TraceUnfold(v: View, d: Dispatch)
    ensures Trace(v, d) == HandlerTrace(v, d) + (if ReachesDefault(d.message) then DefaultTrace(v, d) else [])
    ensures DestroysWithin(d) <==>
      d.message.NcDestroy?
      || (exists i :: 0 <= i < |d.duringHandler| && DestroysWithin(d.duringHandler[i]))
      || (ReachesDefault(d.message) && exists i :: 0 <= i < |d.duringDefault| && DestroysWithin(d.duringDefault[i]))
  {
  }

  /** The calls OnMessage makes for d's message, then those of the messages
      dispatched while it runs. */
  function HandlerTrace(v: View, d: Dispatch): seq<Call> {
    HandleMessage(v, d.message).calls + TraceAll(v, d, d.duringHandler)
  }

  /** DefWindowProc for d's message, then the calls of the messages
      dispatched while it runs. */
  function DefaultTrace(v: View, d: Dispatch): seq<Call> {
    [DefWindowProc(d.message)] + TraceAll(v, d, d.duringDefault)
  }

  /** The trace of the first i + 1 nested dispatches extends that of the
      first i by the trace of dispatch i. */
  lemma TraceAllStep(v: View, parent: Dispatch, ds: seq<Dispatch>, i: nat)
    requires forall j :: 0 <= j < |ds| ==> ds[j] < parent
    requires i < |ds|
    ensures TraceAll(v, parent, ds[..i + 1]) == TraceAll(v, parent, ds[..i]) + Trace(v, ds[i])
  {
    assert ds[..i + 1][..i] == ds[..i];
  }

  function Count(s: seq<Call>, c: Call): nat {
    if s == [] then 0 else Count(s[..|s| - 1], c) + (if s[|s| - 1] == c then 1 else 0)
  }

  lemma CountAbsent(s: seq<Call>, c: Call)
    requires c !in s
    ensures Count(s, c) == 0
  {
    if s != [] { CountAbsent(s[..|s| - 1], c); }
  }


  /** Whether the instance is attached once WndProc has looked it up:
      already, or by this WM_CREATE. */
  predicate Attaches(attached: bool, d: Dispatch) {
    attached || d.message.Create?
  }

  /** Whether dispatching d ends with OnDestroyed: the instance is attached,
      the dispatch is not nested in another, and destroyed_ is set by then. */
  predicate Fires(attached: bool, nested: Option<Message>, destroyed: bool, d: Dispatch) {
    Attaches(attached, d) && nested.None? && (destroyed || DestroysWithin(d))
  }

  /** wnd_ after dispatching d. */
  function NewWnd(attached: bool, nested: Option<Message>, destroyed: bool, wnd: Option<Hwnd>, hwnd: Hwnd, d: Dispatch): Option<Hwnd> {
    if Fires(attached, nested, destroyed, d) then None
    else if !attached && d.message.Create? then Some(hwnd)
    else wnd
  }

  /** Every call made while d is dispatched. */
  function Calls(v: View, attached: bool, nested: Option<Message>, destroyed: bool, d: Dispatch): seq<Call> {
    (if Attaches(attached, d) then Trace(v, d) else [DefWindowProc(d.message)])
    + (if Fires(attached, nested, destroyed, d) then [OnDestroyed] else [])
  }

  /** An outermost dispatch to an attached instance (or one this WM_CREATE
      attaches) notifies OnDestroyed exactly when WM_NCDESTROY arrives during
      it, at any depth; it does so once, and as its very last call. */
  lemma NotifiedExactlyOnce(v: View, attached: bool, d: Dispatch)
    requires Attaches(attached, d)
    ensures Fires(attached, None, false, d) <==> DestroysWithin(d)
    ensures Count(Calls(v, attached, None, false, d), OnDestroyed) == (if DestroysWithin(d) then 1 else 0)
    ensures DestroysWithin(d) ==> Calls(v, attached, None, false, d)[|Calls(v, attached, None, false, d)| - 1] == OnDestroyed
  {
    var s := Calls(v, attached, None, false, d);
    TraceNeverNotifies(v, d);
    CountAbsent(Trace(v, d), OnDestroyed);
    if DestroysWithin(d) {
      assert s[..|s| - 1] == Trace(v, d);
    } else {
      assert s == Trace(v, d);
    }
  }

  class DefaultMainWindow {
    /** ui_ */
    var ui: UiMode
    /** callback_ != NULL */
    var hasCallback: bool
    const autoConnect: bool
    const autoCall: bool
    /** The texts of edit1_ (server) and edit2_ (port). */
    var serverText: string
    var portText: string
    /** The rows of listbox_ and its selection (None for LB_ERR). */
    var items: seq<ListItem>
    var selection: Option<nat>
    /** wnd_ */
    var wnd: Option<Hwnd>
    /** Whether the window's GWLP_USERDATA slot points at this instance. */
    var attached: bool
    /** destroyed_ */
    var destroyed: bool
    /** nested_msg_: the message being dispatched, None outside any dispatch. */
    var nestedMsg: Option<Message>
    /** Every call the window has made, in order. */
    var log: seq<Call>

    ghost predicate Valid()
      reads this
    {
      (nestedMsg.None? ==> !destroyed) &&
      (selection.Some? ==> selection.value < |items|)
    }

    function View(): View
      reads this`ui, this`hasCallback, this`serverText, this`portText, this`items, this`selection
    {
      Messages.View(ui, hasCallback, serverText, portText, items, selection)
    }

    /** The constructor, with the edit boxes as CreateChildWindows fills them:
        the server name and the port formatted by "%i" into ten characters. */
    constructor (server: string, port: int, autoConnect: bool, autoCall: bool)
      ensures Valid()
      ensures ui == ConnectToServer && !hasCallback && wnd == None && !attached
      ensures !destroyed && nestedMsg == None && log == []
      ensures this.autoConnect == autoConnect && this.autoCall == autoCall
      ensures serverText == server && portText == PortText(port)
      ensures items == [] && selection == None
    {
      ui := ConnectToServer;
      hasCallback := false;
      this.autoConnect := autoConnect;
      this.autoCall := autoCall;
      serverText := server;
      portText := PortText(port);
      items := [];
      selection := None;
      wnd := None;
      attached := false;
      destroyed := false;
      nestedMsg := None;
      log := [];
    }

    /** RegisterObserver: set or clear callback_. */
    method RegisterObserver(present: bool)
      modifies this`hasCallback
      ensures hasCallback == present
    {
      hasCallback := present;
    }

    /** The user typing into edit1_ and edit2_ and picking a row of
        listbox_ (or none): OS state that OnDefaultAction reads back. */
    method UserEdits(server: string, port: string, sel: Option<nat>)
      requires Valid()
      requires sel.Some? ==> sel.value < |items|
      modifies this`serverText, this`portText, this`selection
      ensures Valid()
      ensures serverText == server && portText == port && selection == sel
    {
      serverText := server;
      portText := port;
      selection := sel;
    }

    /** WndProc. A WM_CREATE attaches the instance (and sets wnd_); an
        attached instance marks itself nested, runs OnMessage, records
        WM_NCDESTROY in destroyed_ or passes an unhandled message to
        DefWindowProc, and, only when it was not itself nested, notifies
        OnDestroyed and clears wnd_ and destroyed_. */
    method WndProc(hwnd: Hwnd, d: Dispatch) returns (result: LResult)
      requires Valid()
      modifies this`attached, this`wnd, this`destroyed, this`nestedMsg, this`log
      decreases d, 5
      ensures Valid()
      ensures nestedMsg == old(nestedMsg)
      ensures attached == (old(attached) || d.message.Create?)
      ensures var fires := Fires(old(attached), old(nestedMsg), old(destroyed), d);
              destroyed == (!fires && (old(destroyed) || (Attaches(old(attached), d) && DestroysWithin(d))))
      ensures wnd == NewWnd(old(attached), old(nestedMsg), old(destroyed), old(wnd), hwnd, d)
      ensures log == old(log) + Calls(View(), old(attached), old(nestedMsg), old(destroyed), d)
      ensures result.FromDefault? <==> !Attaches(old(attached), d) || ReachesDefault(d.message)
      ensures !result.FromDefault? ==> result == HandleMessage(View(), d.message).result
    {
      if !attached && d.message.Create? {
        wnd := Some(hwnd);
        attached := true;
      }
      if attached {
        result := DispatchAttached(hwnd, View(), d);
      } else {
        result := FromDefault(d.message);
        log := log + [DefWindowProc(d.message)];
      }
    }

    /** The body of WndProc for an attached instance: save nested_msg_, run
        the message, notify OnDestroyed if this dispatch is the outermost and
        destroyed_ is set, and restore nested_msg_. */
    method DispatchAttached(hwnd: Hwnd, ghost v: View, d: Dispatch) returns (result: LResult)
      requires Valid() && attached
      requires View() == v
      modifies this`attached, this`wnd, this`destroyed, this`nestedMsg, this`log
      decreases d, 4
      ensures Valid() && attached
      ensures nestedMsg == old(nestedMsg)
      ensures var fires := old(nestedMsg).None? && (old(destroyed) || DestroysWithin(d));
              && destroyed == (!fires && (old(destroyed) || DestroysWithin(d)))
              && wnd == (if fires then None else old(wnd))
              && log == old(log) + Trace(v, d) + (if fires then [OnDestroyed] else [])
      ensures result.FromDefault? <==> ReachesDefault(d.message)
      ensures !result.FromDefault? ==> result == HandleMessage(v, d.message).result
    {
      var prev := nestedMsg;
      nestedMsg := Some(d.message);
      result := RunMessage(hwnd, v, d);
      if destroyed && prev.None? {
        log := log + [OnDestroyed];
        wnd := None;
        destroyed := false;
      }
      nestedMsg := prev;
    }

    /** OnMessage and the nested dispatches it causes, then WM_NCDESTROY into
        destroyed_, or an unhandled message into DefWindowProc and the nested
        dispatches that causes. */
    method RunMessage(hwnd: Hwnd, ghost v: View, d: Dispatch) returns (result: LResult)
      requires Valid() && attached && nestedMsg == Some(d.message)
      requires View() == v
      modifies this`attached, this`wnd, this`destroyed, this`nestedMsg, this`log
      decreases d, 3
      ensures Valid() && attached && nestedMsg == old(nestedMsg) && wnd == old(wnd)
      ensures destroyed == (old(destroyed) || DestroysWithin(d))
      ensures log == old(log) + Trace(v, d)
      ensures result.FromDefault? <==> ReachesDefault(d.message)
      ensures !result.FromDefault? ==> result == HandleMessage(v, d.message).result
    {
      TraceUnfold(v, d);
      var handled;
      result, handled := RunHandler(hwnd, v, d);
      if d.message.NcDestroy? {
        destroyed := true;
      } else if !handled {
        result := RunDefault(hwnd, v, d);
      }
    }

    /** OnMessage, and the messages dispatched re-entrantly while it runs. */
    method RunHandler(hwnd: Hwnd, ghost v: View, d: Dispatch) returns (result: LResult, handled: bool)
      requires Valid() && attached && nestedMsg == Some(d.message)
      requires View() == v
      modifies this`attached, this`wnd, this`destroyed, this`nestedMsg, this`log
      decreases d, 2
      ensures Valid() && attached && nestedMsg == old(nestedMsg) && wnd == old(wnd)
      ensures destroyed == (old(destroyed) || exists i :: 0 <= i < |d.duringHandler| && DestroysWithin(d.duringHandler[i]))
      ensures log == old(log) + HandlerTrace(v, d)
      ensures result == HandleMessage(v, d.message).result
      ensures handled == Handles(d.message)
    {
      var reply := HandleMessage(View(), d.message);
      log := log + reply.calls;
      DispatchNested(hwnd, v, d, d.duringHandler);
      result := reply.result;
      handled := reply.handled;
    }

    /** DefWindowProc for a message OnMessage left unhandled, and the messages
        dispatched re-entrantly while it runs. */
    method RunDefault(hwnd: Hwnd, ghost v: View, d: Dispatch) returns (result: LResult)
      requires Valid() && attached && nestedMsg == Some(d.message)
      requires View() == v
      modifies this`attached, this`wnd, this`destroyed, this`nestedMsg, this`log
      decreases d, 2
      ensures Valid() && attached && nestedMsg == old(nestedMsg) && wnd == old(wnd)
      ensures destroyed == (old(destroyed) || exists i :: 0 <= i < |d.duringDefault| && DestroysWithin(d.duringDefault[i]))
      ensures log == old(log) + DefaultTrace(v, d)
      ensures result == FromDefault(d.message)
    {
      log := log + [DefWindowProc(d.message)];
      DispatchNested(hwnd, v, d, d.duringDefault);
      result := FromDefault(d.message);
    }

    /** Dispatches the nested messages ds of `parent`, one after the other,
        while the instance is attached and nested inside parent. */
    method DispatchNested(hwnd: Hwnd, ghost v: View, ghost parent: Dispatch, ds: seq<Dispatch>)
      requires Valid() && attached && nestedMsg.Some?
      requires View() == v
      requires forall i :: 0 <= i < |ds| ==> ds[i] < parent
      modifies this`attached, this`wnd, this`destroyed, this`nestedMsg, this`log
      decreases parent, 1
      ensures Valid() && attached && nestedMsg == old(nestedMsg) && wnd == old(wnd)
      ensures destroyed == (old(destroyed) || exists i :: 0 <= i < |ds| && DestroysWithin(ds[i]))
      ensures log == old(log) + TraceAll(v, parent, ds)
    {
      var i := 0;
      while i < |ds|
        invariant 0 <= i <= |ds|
        invariant Valid() && attached && nestedMsg == old(nestedMsg) && wnd == old(wnd)
        invariant View() == v
        invariant destroyed == (old(destroyed) || exists j :: 0 <= j < i && DestroysWithin(ds[j]))
        invariant log == old(log) + TraceAll(v, parent, ds[..i])
      {
        DispatchOne(hwnd, v, parent, ds[i]);
        TraceAllStep(v, parent, ds, i);
        i := i + 1;
      }
      assert ds[..i] == ds;
    }

    /** One nested dispatch: WndProc on an instance that is attached and
        already inside another dispatch, so that it neither attaches nor
        notifies OnDestroyed. */
    method DispatchOne(hwnd: Hwnd, ghost v: View, ghost parent: Dispatch, d: Dispatch)
      requires Valid() && attached && nestedMsg.Some? && d < parent
      requires View() == v
      modifies this`attached, this`wnd, this`destroyed, this`nestedMsg, this`log
      decreases parent, 0
      ensures Valid() && attached && nestedMsg == old(nestedMsg) && wnd == old(wnd)
      ensures destroyed == (old(destroyed) || DestroysWithin(d))
      ensures log == old(log) + Trace(v, d)
    {
      var _ := WndProc(hwnd, d);
    }

    /** SwitchToConnectUI: hide the list box, show the connect controls, focus
        the server edit box, and with auto_connect_ post a click to the
        Connect button. */
    method SwitchToConnectUI()
      requires Valid() && wnd.Some?
      modifies this`ui, this`log
      ensures Valid() && ui == ConnectToServer
      ensures log == old(log) + [LayoutPeerList(false), LayoutConnect(true), FocusControl(Edit1)]
                    + (if autoConnect then [PostButtonClick] else [])
    {
      log := log + [LayoutPeerList(false)];
      ui := ConnectToServer;
      log := log + [LayoutConnect(true), FocusControl(Edit1)];
      if autoConnect {
        log := log + [PostButtonClick];
      }
    }

    /** SwitchToPeerList: refill the list box with the header and one row per
        peer, show it and focus it; with auto_call_ and at least one peer,
        select the last row and post the double click that connects to it. */
    method SwitchToPeerList(peers: seq<Peer>)
      requires Valid()
      modifies this`ui, this`items, this`selection, this`log
      ensures Valid() && ui == ListPeers
      ensures items == PeerRows(peers)
      ensures selection == if autoCall && |peers| > 0 then Some(|peers|) else None
      ensures log == old(log) + [LayoutConnect(false), LayoutPeerList(true), FocusControl(ListBox)]
                    + (if autoCall && |peers| > 0 then [PostCommand(Command(LBN_DBLCLK, Some(ListBox)))] else [])
    {
      ghost var log0 := log;
      log := log + [LayoutConnect(false)];
      items := [];
      selection := None;
      items := items + [ListItem(PeerListHeader, -1)];
      var i := 0;
      while i < |peers|
        invariant 0 <= i <= |peers|
        invariant items == PeerRows(peers[..i])
        invariant selection == None && log == log0 + [LayoutConnect(false)]
      {
        items := items + [ListItem(peers[i].name, peers[i].id)];
        i := i + 1;
      }
      assert peers[..i] == peers;
      ui := ListPeers;
      log := log + [LayoutPeerList(true), FocusControl(ListBox)];
      if autoCall && |peers| > 0 {
        var count := |items|;
        selection := Some(count - 1);
        log := log + [PostCommand(Command(LBN_DBLCLK, Some(ListBox)))];
      }
    }

    /** SwitchToStreamingUI: hide both sets of controls. */
    method SwitchToStreamingUI()
      requires Valid()
      modifies this`ui, this`log
      ensures Valid() && ui == Streaming
      ensures log == old(log) + [LayoutConnect(false), LayoutPeerList(false)]
    {
      log := log + [LayoutConnect(false), LayoutPeerList(false)];
      ui := Streaming;
    }

    /** PreTranslateMessage, with HandleTabbing in its terminating form: tab
        moves the focus to the next shown tab stop among the children, and to
        nothing when there is none. `toWindow` is msg->hwnd != NULL, `shift`
        is the state of the shift key and `focus` the child that has the
        focus. */
    method PreTranslateMessage(toWindow: bool, m: Message, shift: bool, focus: nat) returns (consumed: bool)
      requires m == Char(VK_TAB) ==> focus < |Children|
      modifies this`log
      ensures consumed == PreTranslate(View(), toWindow, m).consumed
      ensures m != Char(VK_TAB) ==> log == old(log) + PreTranslate(View(), toWindow, m).calls
      ensures m == Char(VK_TAB) && HasTabStop(Siblings(ui)) ==>
        log == old(log) + [FocusControl(Children[NextTabStop(Siblings(ui), focus, shift)])]
      ensures m == Char(VK_TAB) && !HasTabStop(Siblings(ui)) ==> log == old(log)
    {
      var t := PreTranslate(View(), toWindow, m);
      if t.tab {
        var next := HandleTabbingBounded(Siblings(ui), focus, shift);
        if next.Some? {
          log := log + [FocusControl(Children[next.value])];
        }
      } else {
        log := log + t.calls;
      }
      consumed := t.consumed;
    }
  }
}
