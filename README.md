# DefaultMainWindow of the native server plugin, modelled in Dafny

This project models the core of `DefaultMainWindow`, the Win32 main window
of the 3D streaming toolkit's native server plugin. It covers four small
sequential state machines in that window.

- **Message dispatch** (`MainWindow`). `WndProc` dispatches re-entrantly
  and defers destruction. The OS's nested deliveries are an input
  `Dispatch` tree: each message carries the messages dispatched to the same
  window while its handler runs, and while `DefWindowProc` runs. The class
  `DefaultMainWindow` keeps `nested_msg_`, `destroyed_`, `wnd_` and the
  user-data attachment as fields. It also keeps a log of every call it makes
  into the OS or into the observer.
- **UI mode machine** (`Messages`, `Tabbing`, `MainWindow`). It covers
  `ui_`, the three `SwitchTo*` operations, and the list box as a sequence
  of (text, item data) rows. `OnMessage`, `OnDefaultAction` and
  `PreTranslateMessage` only make decisions, so they are functions of a
  `View` of the window that return the calls made. `HandleTabbing` is a
  loop over the children as (visible, tab stop) flags.
- **Frame buffer** (`Rendering`). `VideoRenderer` keeps `biWidth`,
  `biHeight` (stored negated), `biSizeImage` and the `image_` array. The
  model covers its constructor, `SetSize` and `OnFrame`.
- **Service lifecycle** (`ServiceLifecycle`). It covers `InstallService`,
  `RemoveService` with its stop poll, and the service decision `Create`
  makes at startup. Every service-control-manager call is an oracle reply
  passed in as a parameter. The open `SC_HANDLE`s are tracked as a set.

`Decimal` holds the text conversions the window relies on: the port
printed with `"%i"` into a ten-character buffer, `GetWindowTextA`'s MAX_PATH
truncation, and C's `atoi`.

The model follows the code, including where it departs from what one
might expect:

- `SetSize` does not reallocate "only when dimensions change". Its test
  compares the new height with the negated stored height, so every frame of
  non-zero height gets a new buffer.
- Zero-sized frames are not rejected.
- Tab in the peer list never returns (see Findings). The as-written loop is `Tabbing.HandleTabbing`; `PreTranslateMessage` uses the corrected, bounded search.
- The stop poll in `RemoveService` has no bound.

## Model

All source paths are relative to the repository root.

| member | source | states |
|---|---|---|
| Decimal.PortText | Plugins/NativeServerPlugin/src/default_main_window.cpp:110-112 | the port text is what "%i" prints, cut to the 9 characters a 10-byte buffer keeps |
| Decimal.WindowText | Plugins/NativeServerPlugin/src/default_main_window.cpp:67-72 | GetWindowTextA gives back a prefix of the control's text shorter than MAX_PATH, and the whole text when it fits |
| Decimal.AtoiDigits | Plugins/NativeServerPlugin/src/default_main_window.cpp:646 | atoi of a run of digits is its value; with a leading minus sign, the negated value |
| Decimal.AtoiFormatInt | Plugins/NativeServerPlugin/src/default_main_window.cpp:646 | atoi reads back every integer that "%i" prints |
| Decimal.PortTextRoundTrip | Plugins/NativeServerPlugin/src/default_main_window.cpp:110-112 | a port whose "%i" text fits in 9 characters is read back unchanged by atoi from the edit box |
| Tabbing.NextTabStop | Plugins/NativeServerPlugin/src/default_main_window.cpp:915-944 | the sibling tab moves to is visible and a tab stop, and is the first such in cyclic order from the focus (backwards with shift) |
| Tabbing.TabStopReachable | Plugins/NativeServerPlugin/src/default_main_window.cpp:922-941 | the cyclic search finds an eligible sibling if and only if one exists |
| Tabbing.NearestIsNext | Plugins/NativeServerPlugin/src/default_main_window.cpp:922-941 | the first eligible sibling k steps round from the focus is the one tab moves to |
| Tabbing.TabForward | Plugins/NativeServerPlugin/src/default_main_window.cpp:924-928 | without shift, tab moves to the next eligible sibling after the focus |
| Tabbing.TabWrapsToFirst | Plugins/NativeServerPlugin/src/default_main_window.cpp:930-936 | past the last eligible sibling, tab wraps to the first one (GW_HWNDFIRST) |
| Tabbing.ShiftTabWrapsToLast | Plugins/NativeServerPlugin/src/default_main_window.cpp:930-936 | before the first eligible sibling, shift-tab wraps to the last one (GW_HWNDLAST) |
| Tabbing.StepIsCyclic | Plugins/NativeServerPlugin/src/default_main_window.cpp:924-940 | one GetWindow step, with the wrap when it returns NULL, advances the cyclic position by one |
| Tabbing.HandleTabbing | Plugins/NativeServerPlugin/src/default_main_window.cpp:915-944 | the do/while, as written, focuses NextTabStop; it ends only when an eligible sibling exists |
| Tabbing.HandleTabbingBounded | Plugins/NativeServerPlugin/src/default_main_window.cpp:915-944 | the search, bounded to one round, finds a sibling exactly when one is eligible, and that sibling is NextTabStop |
| Messages.DefaultAction | Plugins/NativeServerPlugin/src/default_main_window.cpp:635-665 | without a callback it does nothing; in CONNECT_TO_SERVER it calls StartLogin with the edit texts and atoi of the port (0 when empty); in LIST_PEERS it calls ConnectToPeer exactly when a row is selected and its data is not -1; in STREAMING it shows the OK box |
| Messages.HandleMessage | Plugins/NativeServerPlugin/src/default_main_window.cpp:667-735 | OnMessage handles exactly WM_ERASEBKGND, WM_PAINT, WM_SETFOCUS, WM_CTLCOLORSTATIC and WM_COMMAND; only a button click or a list double click runs OnDefaultAction, and no other message logs in, connects or shows the OK box; WM_CLOSE calls Close exactly when a callback is set; observer calls need a callback |
| Messages.PreTranslate | Plugins/NativeServerPlugin/src/default_main_window.cpp:238-276 | tab and enter are consumed, and so is a thread callback with no window; escape disconnects from the peer in STREAMING and from the server otherwise, only with a callback, and is not consumed; a thread callback with no window goes to the observer's UIThreadCallback with its id and data, and through the NULL callback_ when none is set; other messages, and a thread callback sent to a window, are not consumed and make no calls |
| Messages.PeerRowsLayout | Plugins/NativeServerPlugin/src/default_main_window.cpp:466-473 | the list is the header row with data -1, then each peer's name and id in iteration order |
| Messages.HeaderRowNeverConnects | Plugins/NativeServerPlugin/src/default_main_window.cpp:649-659 | with the header row selected, the default action in the peer list calls nothing |
| Messages.AutoCallConnectsToLastPeer | Plugins/NativeServerPlugin/src/default_main_window.cpp:479-496 | the double click that auto-call posts, with the last row selected, connects to the last peer |
| Messages.PickedRowConnects | Plugins/NativeServerPlugin/src/default_main_window.cpp:649-659 | a double click on the row of a peer the user picked connects to that peer |
| Messages.LoginUsesConstructorValues | Plugins/NativeServerPlugin/src/default_main_window.cpp:643-647 | logging in with the edit boxes as created passes the constructor's server and port to StartLogin |
| Messages.ConnectUiTabOrder | Plugins/NativeServerPlugin/src/default_main_window.cpp:821-834 | in the connect UI, tab goes from server edit to port edit to button and back, and shift-tab wraps from the server edit to the button |
| Messages.NoTabStopOutsideConnectUI | Plugins/NativeServerPlugin/src/default_main_window.cpp:899-913 | in LIST_PEERS and STREAMING no child is both visible and a tab stop |
| MainWindow.TraceNeverNotifies | Plugins/NativeServerPlugin/src/default_main_window.cpp:766-771 | no dispatch notifies OnDestroyed before the outermost one returns, however deep the nesting |
| MainWindow.DefaultOnlyForUnhandled | Plugins/NativeServerPlugin/src/default_main_window.cpp:757-764 | WM_NCDESTROY never reaches DefWindowProc, and a message that does was left unhandled by OnMessage |
| MainWindow.NotifiedExactlyOnce | Plugins/NativeServerPlugin/src/default_main_window.cpp:754-774 | an outermost dispatch to an attached instance notifies OnDestroyed exactly when WM_NCDESTROY arrives during it, at any depth; it then does so exactly once, as its last call, and otherwise never |
| MainWindow.DefaultMainWindow.constructor | Plugins/NativeServerPlugin/src/default_main_window.cpp:84-112 | a new window is in CONNECT_TO_SERVER with no callback, no wnd_, not destroyed, not nested, and holds the server and the "%i" port text |
| MainWindow.DefaultMainWindow.RegisterObserver | Plugins/NativeServerPlugin/src/default_main_window.cpp:228-231 | sets or clears callback_ |
| MainWindow.DefaultMainWindow.UserEdits | Plugins/NativeServerPlugin/src/default_main_window.cpp:643-654 | what the user types into the edit boxes and the row they pick become the texts GetWindowText reads and the selection LB_GETCURSEL returns; the selection stays within the list |
| MainWindow.DefaultMainWindow.WndProc | Plugins/NativeServerPlugin/src/default_main_window.cpp:738-782 | WM_CREATE attaches the instance and sets wnd_; nested_msg_ ends as it started; an unattached instance sends everything to DefWindowProc; OnDestroyed fires only from the outermost dispatch once WM_NCDESTROY has arrived, and then wnd_ is NULL and destroyed_ false |
| MainWindow.DefaultMainWindow.DispatchAttached | Plugins/NativeServerPlugin/src/default_main_window.cpp:751-775 | the nested_msg_ marker is saved and restored; OnDestroyed, the clearing of wnd_ and the reset of destroyed_ happen exactly when the entry marker was NULL and destroyed_ is set |
| MainWindow.DefaultMainWindow.RunMessage | Plugins/NativeServerPlugin/src/default_main_window.cpp:754-764 | WM_NCDESTROY sets destroyed_; DefWindowProc runs exactly when OnMessage returned false for any other message |
| MainWindow.DefaultMainWindow.RunHandler | Plugins/NativeServerPlugin/src/default_main_window.cpp:754 | OnMessage's calls, result and handled flag, followed by the messages delivered while it runs |
| MainWindow.DefaultMainWindow.RunDefault | Plugins/NativeServerPlugin/src/default_main_window.cpp:759-762 | DefWindowProc's call and result, followed by the messages delivered while it runs |
| MainWindow.DefaultMainWindow.DispatchNested | Plugins/NativeServerPlugin/src/default_main_window.cpp:738-782 | re-entrant deliveries inside a dispatch keep the instance attached, keep wnd_, and only accumulate destroyed_ |
| MainWindow.DefaultMainWindow.DispatchOne | Plugins/NativeServerPlugin/src/default_main_window.cpp:766-774 | a nested WndProc never notifies OnDestroyed and never clears wnd_ |
| MainWindow.DefaultMainWindow.SwitchToConnectUI | Plugins/NativeServerPlugin/src/default_main_window.cpp:450-462 | ui_ becomes CONNECT_TO_SERVER; the list is hidden, the connect controls are shown, and the server edit gets focus; a button click is posted with auto_connect_ |
| MainWindow.DefaultMainWindow.SwitchToPeerList | Plugins/NativeServerPlugin/src/default_main_window.cpp:464-497 | ui_ becomes LIST_PEERS and the list is rebuilt as the header and one row per peer, so the result depends only on the peers; with auto_call_ and some peer, the last row is selected and a double click is posted |
| MainWindow.DefaultMainWindow.SwitchToStreamingUI | Plugins/NativeServerPlugin/src/default_main_window.cpp:499-504 | ui_ becomes STREAMING with both sets of controls hidden |
| MainWindow.DefaultMainWindow.PreTranslateMessage | Plugins/NativeServerPlugin/src/default_main_window.cpp:238-276 | returns PreTranslate's verdict and makes its calls; tab focuses the next visible tab stop, and does nothing when there is none |
| Rendering.Rotate | Plugins/NativeServerPlugin/src/default_main_window.cpp:994-997 | the rotated buffer is well formed; a quarter turn swaps width and height, and a half turn keeps them |
| Rendering.Upright | Plugins/NativeServerPlugin/src/default_main_window.cpp:994-997 | a frame with a rotation is replaced by its rotated buffer, and the result is well formed |
| Rendering.QuarterTurnsUndo | Plugins/NativeServerPlugin/src/default_main_window.cpp:994-997 | a 90-degree turn and a 270-degree turn undo each other |
| Rendering.HalfTurnUndoes | Plugins/NativeServerPlugin/src/default_main_window.cpp:994-997 | a 180-degree turn undoes itself |
| Rendering.RowBytesAt | Plugins/NativeServerPlugin/src/default_main_window.cpp:1002-1008 | within a row, byte k of pixel c is at 4c + k |
| Rendering.ImageBytesLength | Plugins/NativeServerPlugin/src/default_main_window.cpp:963 | the converted image has width * height * 4 bytes, which is biSizeImage |
| Rendering.Stride | Plugins/NativeServerPlugin/src/default_main_window.cpp:1006-1007 | the stride biWidth * biBitCount / 8 is 4 bytes per pixel |
| Rendering.ImageBytesAt | Plugins/NativeServerPlugin/src/default_main_window.cpp:1002-1008 | with that stride, byte k of pixel (r, c) is at r * stride + 4c + k and lies inside the image |
| Rendering.VideoRenderer.constructor | Plugins/NativeServerPlugin/src/default_main_window.cpp:950-965 | the header is width x height, top-down, with biSizeImage = w * h * 4, and no buffer is allocated |
| Rendering.VideoRenderer.SetSize | Plugins/NativeServerPlugin/src/default_main_window.cpp:973-986 | as written: the early return keeps the buffer; otherwise biWidth = w, biHeight = -h, and a fresh buffer of biSizeImage bytes is allocated |
| Rendering.VideoRenderer.OnFrame | Plugins/NativeServerPlugin/src/default_main_window.cpp:988-1012 | the header takes the upright frame's size; the buffer holds the upright frame converted to ARGB, row by row; the window is invalidated |
| Rendering.SetSizeKeepsOnlyEmpty | Plugins/NativeServerPlugin/src/default_main_window.cpp:977-980 | the early return fires exactly for a zero-height frame whose width matches a zero-height header |
| Rendering.SameSizeReallocates | Plugins/NativeServerPlugin/src/default_main_window.cpp:977-985 | a second frame of the same non-zero size still reallocates |
| ServiceLifecycle.ReadSettings | Plugins/NativeServerPlugin/src/default_main_window.cpp:133-152 | headless_ defaults to has_no_UI_, systemService_ and autoConnect_ to false; each flag present in "serverConfig" overrides its default |
| ServiceLifecycle.Decide | Plugins/NativeServerPlugin/src/default_main_window.cpp:165-198 | it installs and runs exactly for a headless system service without a UI that is absent; it only runs when one is present; it removes exactly when the app is not a system service and the service is present |
| ServiceLifecycle.InstallAndRemoveExclusive | Plugins/NativeServerPlugin/src/default_main_window.cpp:168-198 | startup never both installs and removes; it installs only what is absent, and removes only what is present |
| ServiceLifecycle.NoConfigNeverInstalls | Plugins/NativeServerPlugin/src/default_main_window.cpp:133-198 | without a configuration, an installed service is removed and nothing is installed |
| ServiceLifecycle.PollLength | Plugins/NativeServerPlugin/src/default_main_window.cpp:409-417 | the number of status queries the stop poll makes: every query before the last succeeded with STOP_PENDING, and the last failed or reported another state |
| ServiceLifecycle.WaitWhileStopPending | Plugins/NativeServerPlugin/src/default_main_window.cpp:409-417 | the poll queries while queries succeed with STOP_PENDING, stops at the first failed query or other state, so it makes PollLength queries, and leaves the status that query reported |
| ServiceLifecycle.ServiceControl.InstallService | Plugins/NativeServerPlugin/src/default_main_window.cpp:278-359 | it succeeds exactly when the path, the manager and CreateService all succeed; a failure leaves the open handles as they were; success leaves two handles open |
| ServiceLifecycle.ServiceControl.RemoveService | Plugins/NativeServerPlugin/src/default_main_window.cpp:361-448 | it fails when the manager or the service cannot be opened; otherwise it asks the service to stop, polls the status (PollLength queries) only when the stop request succeeds, and calls DeleteService whatever the state; it succeeds exactly when DeleteService does; failures close every handle they opened; success leaves two open |
| ServiceLifecycle.ServiceControl.ConfigureAtStartup | Plugins/NativeServerPlugin/src/default_main_window.cpp:165-201 | with the manager open, it takes Decide's action, runs the service for a headless system service, and closes the handles Create itself opens; only a successful install or remove leaves handles open |

## Left out

- Painting, text measurement and control layout are not modelled. This covers `OnPaint`, `CalculateWindowSizeForText`, the moves and texts in `LayoutConnectUI`/`LayoutPeerListUI`, fonts and `MessageBox`. Their effect is a logged call. Which children they show is `Messages.ShownIn`.
- Locking is not modelled: the critical section, `AutoLock`, and the producer thread running concurrently with painting. Renderer methods are sequential.
- `libyuv::I420ToARGB`'s colour arithmetic is a function parameter of `OnFrame`. It is applied per sample and ignores chroma subsampling.
- `I420Buffer::Rotate` is modelled as the clockwise turn of the sample grid that `webrtc::VideoRotation` describes. Its plane-by-plane layout is not modelled.
- Integer widths are not modelled. `width * height * 4` in `SetSize`, the DWORD `biSizeImage` and `atoi` overflow are all unbounded integers. `PortTextRoundTrip` is stated only for ports whose text fits the buffer.
- Rendering.VideoRenderer.constructor: requires a positive height. The only callers pass 1 x 1. With a non-positive height, `SetSize`'s early return could leave `image_` NULL before `OnFrame`'s DCHECK.
- JSON parsing and the service name, display name, account and password strings are not modelled. The file's "serverConfig" reaches the model already parsed into three optional flags.
- The following are not modelled beyond the logged calls they stand for: `CServiceBase::Run`/`RenderService`, `CreateWindowExW`, `RegisterWindowClass`, `CreateChildWindow(s)`, `PostMessage`/`PostThreadMessage`, `Sleep` and `wprintf`.
- `Destroy`, `IsWindow`, `StartLocalRenderer`/`StopLocalRenderer`, `StartRemoteRenderer`/`StopRemoteRenderer`, `QueueUIThreadCallback` and `OnPaint` are not modelled. They are thin wrappers over OS calls and renderer ownership.
- ServiceLifecycle.WaitWhileStopPending: requires that some reply ends the poll. The source polls with no bound while the service stays STOP_PENDING, so a service that never leaves that state hangs it.
- ServiceLifecycle.ServiceControl.RemoveService: has the same requirement on the replies when the stop request succeeds.
- MainWindow.DefaultMainWindow.WndProc: only the outermost dispatch can attach the instance. Messages delivered re-entrantly to an unattached window (inside `DefWindowProc` before `WM_CREATE`) are not modelled.
- MainWindow.DefaultMainWindow.PreTranslateMessage: the focus is taken to be one of the six children when tab is pressed. With the focus elsewhere, `GetWindow` walks windows outside this one.
- Focus and visibility are not state in the model. They are OS state, so `SetFocus` and `ShowWindow` are logged calls, and visibility is a function of `ui_`.
- MainWindow.DefaultMainWindow.PreTranslateMessage: tab uses the bounded search (`Tabbing.HandleTabbingBounded`). With no visible tab stop, as in LIST_PEERS and STREAMING, it returns with the focus unchanged where the source loops forever; the loop as written is `Tabbing.HandleTabbing`, and the hang is under Findings.
- MainWindow.DefaultMainWindow.WndProc: observer calls made during a dispatch do not change the window's state. `StartLogin`, `ConnectToPeer` and `Close` are synchronous and may call `SwitchToPeerList`, `SwitchToStreamingUI` or `RegisterObserver` before they return. The model evaluates every `OnMessage` within one outermost dispatch, nested ones included, against the `ui_`, callback, list and edit texts at its entry.
- Decimal.WindowText: counts characters, while `GetWindowTextA`'s MAX_PATH limit counts ANSI bytes. Text with multi-byte characters is cut later in the model than by the OS.

## Findings

| source | as written | input that shows it | evidently intended | confidence | as-written member | corrected member |
|---|---|---|---|---|---|---|
| Plugins/NativeServerPlugin/src/default_main_window.cpp:922-941 | the tab search loops `do { … } while (true)` until a visible WS_TABSTOP sibling turns up | the peer list view (LIST_PEERS), focus on the list box, Tab pressed: the list box is the only visible child and has no WS_TABSTOP, so no sibling ever qualifies and the UI thread spins forever | search at most one round of the siblings and leave the focus alone when none qualifies | not executed; medium | Tabbing.HandleTabbing with Messages.NoTabStopOutsideConnectUI | Tabbing.HandleTabbingBounded |
