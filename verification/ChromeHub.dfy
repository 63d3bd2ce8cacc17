/**
 * The chrome hub's threads as atomic steps: the Wayland thread, which describes
 * the desktop and queues what it broadcasts; the server, which writes the queue
 * to every chrome in the broadcast list; and for each connection a reader and
 * the thread its system calls answer from. They share the host, the list and
 * one writer per connection, each under a lock, and the queue.
 */
module ChromeHub {
  import opened Basics

  type Conn = nat
  // A desktop as some describe left it.
  type Desktop = int

  datatype Theme = Dark | Light

  /** What is broadcast or written: the displays, the theme, or anything else. */
  datatype Message = Displays(desktop: Desktop) | Themed(theme: Theme) | Other

  datatype Lock = Chromes | WriterOf(conn: Conn) | Host {
    /** The order in which every thread acquires. */
    function Rank(): nat {
      match this
      case Chromes => 0
      case WriterOf(_) => 1
      case Host => 2
    }
  }

  datatype Thread = Wayland | Server | Reader(conn: Conn) | System(conn: Conn)

  /** What the Wayland thread does under the host lock: describe a desktop, set the theme, or something else. */
  datatype Plan = Describe(desktop: Desktop) | SetTheme(theme: Theme) | Decide

  datatype WaylandAt =
    | WIdle
    | WWantsHost(plan: Plan)
    | WInHost(plan: Plan)
    | WTelling(told: seq<Message>, theme: bool)
    | WWantsChromes
    | WInChromes

  datatype ServerAt =
    | SIdle
    | SWantsChromes(message: Message)
    // Holds the list, and wants the writer of the first still to be written to.
    | SSending(message: Message, todo: seq<Conn>)
    | SWriting(message: Message, todo: seq<Conn>)

  /** What a chrome says, as far as the hub's state goes. */
  datatype Said =
    | Hello(agreed: bool)
    | AppHello(agreed: bool)
    | SyncFrames
    | PickTheme(theme: Theme)
    // Asked of the host, applied to it with no answer, or answered without it.
    | WhichTheme
    | ForHost
    | Answered(replies: nat)

  /** What a reader does with the broadcast list while it holds it. */
  datatype ListUse = Join | Leave | Look

  datatype ReaderAt =
    | Reading
    | WantsHost(said: Said)
    | InHost(said: Said)
    | TellingTheme(told: seq<Message>)
    | WantsChromes(use: ListUse, replies: seq<Message>)
    | InChromes(use: ListUse, replies: seq<Message>)
    | WantsFocus(replies: seq<Message>)
    | InFocus(replies: seq<Message>)
    | TellingFocus(count: nat, replies: seq<Message>)
    // Wants its writer, if it has replies.
    | Answering(replies: seq<Message>)
    // Holds its writer, and wants the host when the next reply is the displays.
    | Writing(replies: seq<Message>)
    | Freshening(replies: seq<Message>)
    | Fresh(desktop: Desktop, replies: seq<Message>)
    | WantsOut
    | GoingOut
    | Gone

  datatype SystemAt = YIdle | YWantsWriter | YWriting

  /**
   * One connection: its reader's flags, the desktop and the theme last written
   * to its page, and whether a handshake answer with the displays has been
   * written since it last joined the list.
   */
  datatype Connection = Connection(
    at: ReaderAt, ready: bool, joined: bool, app: bool, system: SystemAt,
    shown: Option<Desktop>, themed: Option<Theme>, answered: bool)

  datatype World = World(
    desktop: Desktop,
    theme: Theme,
    queue: seq<Message>,
    chromes: seq<Conn>,
    wayland: WaylandAt,
    server: ServerAt,
    conns: map<Conn, Connection>)

  /** The locks `c`'s reader holds at `at`. */
  function HeldAt(at: ReaderAt, c: Conn): set<Lock> {
    match at
    case InHost(_) => {Host}
    case InChromes(_, _) => {Chromes}
    case InFocus(_) => {Host}
    case Writing(_) => {WriterOf(c)}
    case Freshening(_) => {WriterOf(c), Host}
    case Fresh(_, _) => {WriterOf(c)}
    case GoingOut => {Chromes}
    case _ => {}
  }

  /** The lock `c`'s reader waits for at `at`. */
  function WantedAt(at: ReaderAt, c: Conn): Option<Lock> {
    match at
    case WantsHost(_) => Some(Host)
    case WantsChromes(_, _) => Some(Chromes)
    case WantsFocus(_) => Some(Host)
    case Answering(replies) => if replies == [] then None else Some(WriterOf(c))
    case Writing(replies) => if replies != [] && replies[0].Displays? then Some(Host) else None
    case WantsOut => Some(Chromes)
    case _ => None
  }

  /** The locks `t` holds where it is. */
  function Holds(w: World, t: Thread): set<Lock> {
    match t
    case Wayland => (match w.wayland
      case WInHost(_) => {Host}
      case WInChromes => {Chromes}
      case _ => {})
    case Server => (match w.server
      case SSending(_, _) => {Chromes}
      case SWriting(_, todo) => if todo == [] then {Chromes} else {Chromes, WriterOf(todo[0])}
      case _ => {})
    case Reader(c) => if c in w.conns then HeldAt(w.conns[c].at, c) else {}
    case System(c) => if c in w.conns && w.conns[c].system.YWriting? then {WriterOf(c)} else {}
  }

  /** The lock `t` is blocked on, if it waits for one. */
  function Wants(w: World, t: Thread): Option<Lock> {
    match t
    case Wayland => (match w.wayland
      case WWantsHost(_) => Some(Host)
      case WWantsChromes => Some(Chromes)
      case _ => None)
    case Server => (match w.server
      case SWantsChromes(_) => Some(Chromes)
      case SSending(_, todo) => if todo == [] then None else Some(WriterOf(todo[0]))
      case _ => None)
    case Reader(c) => if c in w.conns then WantedAt(w.conns[c].at, c) else None
    case System(c) => if c in w.conns && w.conns[c].system.YWantsWriter? then Some(WriterOf(c)) else None
  }

  ghost predicate Free(w: World, lock: Lock) {
    forall t :: lock !in Holds(w, t)
  }

  /** What a thread does next. `ok` is whether a write succeeds, `count` how many messages the host asks to tell. */
  datatype Event =
    | WaylandStarts(plan: Plan)
    | WaylandSteps(count: nat)
    | ServerSteps(ok: bool)
    | Connects(conn: Conn)
    | Says(conn: Conn, said: Said)
    | HangsUp(conn: Conn)
    | ReaderSteps(conn: Conn, ok: bool, count: nat)
    | SystemSteps(conn: Conn)

  function Others(count: nat): seq<Message> { seq(count, _ => Other) }

  function Without(list: seq<Conn>, c: Conn): seq<Conn> { Filter(list, NotThe(c)) }

  function NotThe(c: Conn): Conn -> bool { (x: Conn) => x != c }

  /** What is told when the theme is set: nothing if it is set already, and more after it if it changes the looks. */
  function ThemeTold(was: Theme, theme: Theme, count: nat): seq<Message> {
    if theme == was then [] else [Themed(theme)] + if count > 0 then [Other] else []
  }

  function WaylandNext(w: World, count: nat): World {
    match w.wayland
    case WIdle => w
    case WWantsHost(plan) => w.(wayland := WInHost(plan))
    case WInHost(Describe(desktop)) => w.(desktop := desktop, wayland := WTelling([Displays(desktop)], false))
    case WInHost(SetTheme(theme)) =>
      var told := ThemeTold(w.theme, theme, count);
      w.(theme := theme, wayland := WTelling(told, told != []))
    case WInHost(Decide) => w.(wayland := WTelling(Others(count), false))
    case WTelling(told, theme) =>
      if told != [] then w.(queue := w.queue + [told[0]], wayland := WTelling(told[1..], theme))
      else w.(wayland := if theme then WWantsChromes else WIdle)
    case WWantsChromes => w.(wayland := WInChromes)
    case WInChromes => w.(wayland := WIdle)
  }

  /** The page on `c` reads `message`. */
  function Shown(conn: Connection, message: Message): Connection {
    match message
    case Displays(desktop) => conn.(shown := Some(desktop))
    case Themed(theme) => conn.(themed := Some(theme))
    case Other => conn
  }

  function ServerNext(w: World, ok: bool): World {
    match w.server
    case SIdle => if w.queue == [] then w else w.(queue := w.queue[1..], server := SWantsChromes(w.queue[0]))
    case SWantsChromes(message) => w.(server := SSending(message, w.chromes))
    case SSending(message, todo) => w.(server := if todo == [] then SIdle else SWriting(message, todo))
    case SWriting(message, todo) =>
      if todo == [] || todo[0] !in w.conns then w
      else if ok then
        w.(conns := w.conns[todo[0] := Shown(w.conns[todo[0]], message)], server := SSending(message, todo[1..]))
      else w.(chromes := Without(w.chromes, todo[0]), server := SSending(message, todo[1..]))
  }

  /** The connection after its reader hears `said`. In app mode it hears only an app's requests. */
  function Heard(conn: Connection, said: Said): Connection {
    if conn.app then conn.(at := Answering(if said.Answered? then Others(said.replies) else []))
    else
      match said
      case Hello(_) => conn.(at := WantsHost(said))
      case AppHello(agreed) =>
        if conn.ready then conn.(at := WantsFocus([]))
        else conn.(at := WantsFocus([Other]), app := agreed)
      case SyncFrames => conn.(at := WantsChromes(Look, []))
      case PickTheme(_) => conn.(at := WantsHost(said))
      case WhichTheme => conn.(at := WantsHost(said))
      case ForHost => conn.(at := WantsHost(said))
      case Answered(replies) => conn.(at := WantsFocus(Others(replies)))
  }

  /** The answers to a good hello, of which the second carries `desktop` and the third `theme`. */
  function HelloReplies(desktop: Desktop, theme: Theme, count: nat): seq<Message> {
    [Other, Displays(desktop), Themed(theme)] + Others(count)
  }

  /** The connection after what its reader does under the host lock. */
  function Applied(conn: Connection, said: Said, desktop: Desktop, theme: Theme, count: nat): Connection {
    match said
    case Hello(agreed) =>
      var replies := if agreed then HelloReplies(desktop, theme, count) else [Other];
      var at := if agreed then WantsChromes(if conn.joined then Look else Join, replies)
                else if conn.joined then WantsChromes(Leave, replies)
                else WantsFocus(replies);
      conn.(ready := agreed, at := at)
    case PickTheme(picked) =>
      var told := ThemeTold(theme, picked, count);
      conn.(at := if told != [] then TellingTheme(told) else WantsFocus([]))
    case WhichTheme => conn.(at := WantsFocus([Themed(theme)]))
    case _ => conn.(at := WantsFocus([]))
  }

  /** The connection after its reader's next step. */
  function ReaderAfter(conn: Connection, desktop: Desktop, theme: Theme, ok: bool, count: nat): Connection {
    match conn.at
    case Reading => conn
    case WantsHost(said) => conn.(at := InHost(said))
    case InHost(said) => Applied(conn, said, desktop, theme, count)
    case TellingTheme(told) => conn.(at := if told != [] then TellingTheme(told[1..]) else WantsChromes(Look, []))
    case WantsChromes(use, replies) => conn.(at := InChromes(use, replies))
    // Joins, then takes the lock again to say the page does not sync frames.
    case InChromes(Join, replies) => conn.(joined := true, answered := false, at := WantsChromes(Look, replies))
    case InChromes(Leave, replies) => conn.(joined := false, at := WantsFocus(replies))
    case InChromes(Look, replies) => conn.(at := WantsFocus(replies))
    case WantsFocus(replies) => conn.(at := InFocus(replies))
    case InFocus(replies) => conn.(at := TellingFocus(count, replies))
    case TellingFocus(left, replies) =>
      conn.(at := if left > 0 then TellingFocus(left - 1, replies) else Answering(replies))
    case Answering(replies) => conn.(at := if replies == [] then Reading else Writing(replies))
    case Writing(replies) =>
      if replies == [] then conn.(at := Reading)
      else if replies[0].Displays? then conn.(at := Freshening(replies))
      else if ok then Shown(conn, replies[0]).(at := Writing(replies[1..]))
      else conn.(at := WantsOut)
    case Freshening(replies) => conn.(at := Fresh(desktop, replies))
    case Fresh(now, replies) =>
      if ok && replies != [] then conn.(shown := Some(now), answered := true, at := Writing(replies[1..]))
      else conn.(at := WantsOut)
    case WantsOut => conn.(at := GoingOut)
    case GoingOut => conn.(at := Gone)
    case Gone => conn
  }

  /** The broadcast list after a step of `c`'s reader at `at`. */
  function ListAfter(at: ReaderAt, chromes: seq<Conn>, c: Conn): seq<Conn> {
    match at
    case InChromes(Join, _) => chromes + [c]
    case InChromes(Leave, _) => Without(chromes, c)
    case GoingOut => Without(chromes, c)
    case _ => chromes
  }

  /** What a reader's step at `at` queues for every chrome. */
  function Tells(at: ReaderAt): seq<Message> {
    match at
    case TellingTheme(told) => if told != [] then [told[0]] else []
    case TellingFocus(left, _) => if left > 0 then [Other] else []
    case _ => []
  }

  /** The host's theme after a reader's step at `at`. */
  function ThemeAfter(at: ReaderAt, theme: Theme): Theme {
    match at
    case InHost(PickTheme(picked)) => picked
    case _ => theme
  }

  function ReaderNext(w: World, c: Conn, ok: bool, count: nat): World
    requires c in w.conns
  {
    var conn := w.conns[c];
    w.(conns := w.conns[c := ReaderAfter(conn, w.desktop, w.theme, ok, count)],
       theme := ThemeAfter(conn.at, w.theme),
       chromes := ListAfter(conn.at, w.chromes, c),
       queue := w.queue + Tells(conn.at))
  }

  function SystemNext(w: World, c: Conn): World
    requires c in w.conns
  {
    var at := match w.conns[c].system
              case YIdle => YWantsWriter
              case YWantsWriter => YWriting
              case YWriting => YIdle;
    w.(conns := w.conns[c := w.conns[c].(system := at)])
  }

  /** The thread a step is of, if it may block on a lock. */
  function Stepper(event: Event): Option<Thread> {
    match event
    case WaylandSteps(_) => Some(Wayland)
    case ServerSteps(_) => Some(Server)
    case ReaderSteps(c, _, _) => Some(Reader(c))
    case SystemSteps(c) => Some(System(c))
    case _ => None
  }

  predicate HasNext(w: World, event: Event) {
    match event
    case WaylandStarts(_) => w.wayland.WIdle?
    case WaylandSteps(_) => !w.wayland.WIdle?
    case ServerSteps(_) => !w.server.SIdle? || w.queue != []
    case Connects(c) => c !in w.conns
    case Says(c, _) => c in w.conns && w.conns[c].at.Reading?
    case HangsUp(c) => c in w.conns && w.conns[c].at.Reading?
    case ReaderSteps(c, _, _) => c in w.conns && !w.conns[c].at.Reading? && !w.conns[c].at.Gone?
    case SystemSteps(c) => c in w.conns
  }

  /** Where the event's thread is, this is what it does next, and no lock is in its way. */
  ghost predicate Enabled(w: World, event: Event) {
    && (Stepper(event).Some? && Wants(w, Stepper(event).value).Some? ==>
         Free(w, Wants(w, Stepper(event).value).value))
    && HasNext(w, event)
  }

  function Next(w: World, event: Event): World {
    match event
    case WaylandStarts(plan) => w.(wayland := WWantsHost(plan))
    case WaylandSteps(count) => WaylandNext(w, count)
    case ServerSteps(ok) => ServerNext(w, ok)
    case Connects(c) => w.(conns := w.conns[c := Connection(Reading, false, false, false, YIdle, None, None, false)])
    case Says(c, said) => if c in w.conns then w.(conns := w.conns[c := Heard(w.conns[c], said)]) else w
    case HangsUp(c) => if c in w.conns then w.(conns := w.conns[c := w.conns[c].(at := WantsOut)]) else w
    case ReaderSteps(c, ok, count) => if c in w.conns then ReaderNext(w, c, ok, count) else w
    case SystemSteps(c) => if c in w.conns then SystemNext(w, c) else w
  }

  /** Before any connection: the desktop the startup describe left. */
  ghost predicate Initial(w: World) {
    w.queue == [] && w.chromes == [] && w.wayland == WIdle && w.server == SIdle && w.conns == map[]
  }

  ghost predicate RunsTo(w: World, events: seq<Event>, end: World)
    decreases |events|
  {
    if events == [] then w == end else Enabled(w, events[0]) && RunsTo(Next(w, events[0]), events[1..], end)
  }

  ghost predicate Reachable(w: World) {
    exists start, events :: Initial(start) && RunsTo(start, events, w)
  }
}
