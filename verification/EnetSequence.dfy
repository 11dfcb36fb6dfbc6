/** 16-bit reliable sequence numbers and their sixteen windows, against the unbounded numbers they stand for. */
module EnetSequence {

  const SEQ_MOD: nat := 0x1_0000
  /** ENET_PEER_RELIABLE_WINDOW_SIZE, ENET_PEER_RELIABLE_WINDOWS, ENET_PEER_FREE_RELIABLE_WINDOWS */
  const WINDOW_SIZE: nat := 0x1000
  const WINDOWS: nat := 16
  const FREE_WINDOWS: nat := 8

  type seq16 = s: nat | s < SEQ_MOD

  function Seq16(u: nat): seq16 {
    u % SEQ_MOD
  }

  lemma SeqAdd(a: nat, b: nat)
    ensures Seq16(Seq16(a) + b) == Seq16(a + b)
  {
  }

  /** The window of an unbounded sequence number. */
  function Win(u: nat): nat {
    u / WINDOW_SIZE
  }

  /** The window of `s` as the receiver counts it from the window of `current`. */
  function WireWindow(s: seq16, current: seq16): nat {
    s / WINDOW_SIZE + if s < current then WINDOWS else 0
  }

  /** `__enet_peer_queue_incoming_command`, `__enet_protocol_handle_send_fragment`: too old or too far ahead. */
  predicate InWindow(s: seq16, current: seq16) {
    current / WINDOW_SIZE <= WireWindow(s, current) < current / WINDOW_SIZE + FREE_WINDOWS - 1
  }

  /** `__enet_peer_queue_acknowledgement`: no acknowledgement for the two windows behind those accepted. */
  predicate MayAck(s: seq16, current: seq16) {
    var w, c := WireWindow(s, current), current / WINDOW_SIZE;
    !(c + FREE_WINDOWS - 1 <= w <= c + FREE_WINDOWS)
  }

  /** How far `s` is ahead of `current`, around the 16-bit circle. */
  function Ahead(s: seq16, current: seq16): nat {
    (s + SEQ_MOD - current) % SEQ_MOD
  }

  /** Numbers less than 65536 apart keep their order on the circle. */
  lemma AheadUnwrapped(u: nat, n: nat)
    requires n <= u < n + SEQ_MOD
    ensures Ahead(Seq16(u), Seq16(n)) == u - n
  {
  }

  /** The receiver's window arithmetic, for numbers at or ahead of its own ... */
  lemma WindowAhead(u: nat, n: nat)
    requires n <= u < n + SEQ_MOD
    ensures WireWindow(Seq16(u), Seq16(n)) - Seq16(n) / WINDOW_SIZE == Win(u) - Win(n)
  {
    var a, b := n / SEQ_MOD, u / SEQ_MOD;
    assert b == a || b == a + 1;
    assert u == b * SEQ_MOD + Seq16(u) && n == a * SEQ_MOD + Seq16(n);
    WindowSplit(u);
    WindowSplit(n);
  }

  lemma WindowSplit(u: nat)
    ensures Win(u) == u / SEQ_MOD * WINDOWS + Seq16(u) / WINDOW_SIZE
  {
  }

  lemma TurnRound(u: nat)
    ensures Seq16(u + SEQ_MOD) == Seq16(u) && Win(u + SEQ_MOD) == Win(u) + WINDOWS
  {
  }

  /** ... and for older ones, which look sixteen windows younger. */
  lemma WindowBehind(u: nat, n: nat)
    requires u < n <= u + SEQ_MOD
    ensures WireWindow(Seq16(u), Seq16(n)) - Seq16(n) / WINDOW_SIZE == Win(u) + WINDOWS - Win(n)
  {
    hide Seq16, Win, WireWindow;
    TurnRound(u);
    WindowAhead(u + SEQ_MOD, n);
  }

  /** An old number is taken for a new one exactly when it is staler than nine windows. */
  lemma StaleRejected(u: nat, n: nat)
    requires u < n < u + SEQ_MOD
    ensures InWindow(Seq16(u), Seq16(n)) <==> Win(n) > Win(u) + 9
    ensures Win(n) <= Win(u) + 7 ==> MayAck(Seq16(u), Seq16(n))
  {
    WindowBehind(u, n);
  }

  /** Being accepted, and the two windows without acknowledgement, in terms of unbounded numbers. */
  lemma AheadWindows(u: nat, n: nat)
    requires n <= u < n + SEQ_MOD
    ensures InWindow(Seq16(u), Seq16(n)) <==> Win(u) <= Win(n) + 6
    ensures MayAck(Seq16(u), Seq16(n)) <==> !(Win(n) + 7 <= Win(u) <= Win(n) + 8)
  {
    WindowAhead(u, n);
  }

  /** The comparison the receiver makes when it walks its queue: `e` before `s`, by wrapped numbers alone. */
  predicate Before(e: seq16, s: seq16, current: seq16) {
    if s >= current then (if e < current then false else e < s)
    else if e >= current then true else e < s
  }

  /** It is the order around the circle. */
  lemma BeforeIsAhead(e: seq16, s: seq16, current: seq16)
    ensures Before(e, s, current) <==> Ahead(e, current) < Ahead(s, current)
    ensures e == s <==> Ahead(e, current) == Ahead(s, current)
  {
  }
}
