/**
 The UART in its buffered (terminal UI) mode: injected bytes wait in a queue, move one at a time
 into a single-byte hardware buffer, and are consumed by firmware reads of UDR0.
 */
module Uart {
  import opened Bits
  import opened Interrupts

  datatype State = State(rxQueue: seq<Byte>, hwReady: bool, hwByte: Byte, tx: seq<Byte>,
                         ubrrl: Byte, ucsrb: Byte, ucsrc: Byte)

  const RXCIE := 7
  const TXCIE := 6
  const UDRIE := 5

  function Inject(u: State, b: Byte): State {
    u.(rxQueue := u.rxQueue + [b])
  }

  /** The new state and the vectors raised, in order. */
  datatype Effect = Effect(uart: State, raised: seq<Vector>)

  function Poll(u: State): Effect {
    if u.hwReady || u.rxQueue == [] then Effect(u, [])
    else Effect(u.(hwReady := true, hwByte := u.rxQueue[0], rxQueue := u.rxQueue[1..]),
                if Bit(u.ucsrb, RXCIE) then [USART_RX] else [])
  }

  /** TXC and UDRE always read as set; RXC says that a byte is buffered. */
  function Ucsra(u: State): Byte {
    0x60 + (if u.hwReady then 0x80 else 0)
  }

  datatype ReadResult = ReadResult(uart: State, value: Byte)

  function Consume(u: State): ReadResult {
    if u.hwReady then ReadResult(u.(hwReady := false), u.hwByte) else ReadResult(u, 0)
  }

  /** Offsets 0-6 are the ATmega328P block at 0xC0, 9-13 the legacy block at 0x29. */
  function ReadRegister(u: State, ioAddr: Byte): ReadResult {
    match ioAddr
    case 0x00 => ReadResult(u, Ucsra(u))
    case 0x01 => ReadResult(u, u.ucsrb)
    case 0x02 => ReadResult(u, u.ucsrc)
    case 0x04 => ReadResult(u, u.ubrrl)
    case 0x06 => Consume(u)
    case 0x09 => ReadResult(u, u.ubrrl)
    case 0x0A => ReadResult(u, u.ucsrb)
    case 0x0B => ReadResult(u, Ucsra(u))
    case 0x0C => Consume(u)
    case 0x0D => ReadResult(u, u.ucsrc)
    case _ => ReadResult(u, 0)
  }

  function Transmit(u: State, value: Byte): Effect {
    Effect(u.(tx := u.tx + [value]),
           (if Bit(u.ucsrb, TXCIE) then [USART_TX] else []) + (if Bit(u.ucsrb, UDRIE) then [USART_UDRE] else []))
  }

  function Control(u: State, value: Byte): Effect {
    Effect(u.(ucsrb := value), if Bit(value, UDRIE) then [USART_UDRE] else [])
  }

  function WriteRegister(u: State, ioAddr: Byte, value: Byte): Effect {
    match ioAddr
    case 0x01 => Control(u, value)
    case 0x02 => Effect(u.(ucsrc := value), [])
    case 0x04 => Effect(u.(ubrrl := value), [])
    case 0x06 => Transmit(u, value)
    case 0x09 => Effect(u.(ubrrl := value), [])
    case 0x0A => Control(u, value)
    case 0x0C => Transmit(u, value)
    case 0x0D => Effect(u.(ucsrc := value), [])
    case _ => Effect(u, [])
  }

  /** Only writes raise vectors from here, and only transmit and data-register-empty. */
  lemma WritesRaiseOnlyTransmit(u: State, ioAddr: Byte, value: Byte)
    ensures forall v :: v in WriteRegister(u, ioAddr, value).raised ==> v == USART_TX || v == USART_UDRE
  {
  }

  // ------------------------------------------------------------------ no byte lost, none reordered

  predicate IsDataRegister(ioAddr: Byte) {
    ioAddr == 0x06 || ioAddr == 0x0C
  }

  datatype Event =
    | Injected(b: Byte)
    | Polled
    | ReadAt(ioAddr: Byte)
    | WroteAt(ioAddr: Byte, value: Byte)
    | PoppedTx

  /** The state together with everything that ever crossed the boundary. */
  datatype Log = Log(uart: State, injected: seq<Byte>, consumed: seq<Byte>, sent: seq<Byte>, popped: seq<Byte>)

  function Record(l: Log, e: Event): Log {
    match e
    case Injected(b) => l.(uart := Inject(l.uart, b), injected := l.injected + [b])
    case Polled => l.(uart := Poll(l.uart).uart)
    case ReadAt(a) =>
      var r := ReadRegister(l.uart, a);
      l.(uart := r.uart,
         consumed := if IsDataRegister(a) && Bit(Ucsra(l.uart), RXCIE) then l.consumed + [r.value] else l.consumed)
    case WroteAt(a, v) =>
      l.(uart := WriteRegister(l.uart, a, v).uart, sent := if IsDataRegister(a) then l.sent + [v] else l.sent)
    case PoppedTx => l.(uart := l.uart.(tx := []), popped := l.popped + l.uart.tx)
  }

  function RecordAll(l: Log, events: seq<Event>): Log
    decreases |events|
  {
    if events == [] then l else RecordAll(Record(l, events[0]), events[1..])
  }

  function Buffered(u: State): seq<Byte> {
    (if u.hwReady then [u.hwByte] else []) + u.rxQueue
  }

  ghost predicate Conserved(l: Log) {
    l.consumed + Buffered(l.uart) == l.injected && l.popped + l.uart.tx == l.sent
  }

  lemma UcsraShowsReady(u: State)
    ensures Bit(Ucsra(u), RXCIE) == u.hwReady
  {
    assert Bit(0x60, 7) == Bit(6, 3) == Bit(0, 0);
    assert Bit(0xE0, 7) == Bit(14, 3) == Bit(1, 0);
  }

  /**
   Over every interleaving of injections, polls, register accesses and transmit pops, the bytes that
   firmware consumed while RXC was set, the hardware byte and the queue are the injected bytes in
   order; what was popped and the transmit buffer are the transmitted bytes in order.
   */
  lemma {:induction false} BytesConserved(l: Log, events: seq<Event>)
    requires Conserved(l)
    ensures Conserved(RecordAll(l, events))
    decreases |events|
  {
    if events != [] {
      UcsraShowsReady(l.uart);
      ConservedStep(l, events[0]);
      BytesConserved(Record(l, events[0]), events[1..]);
    }
  }

  lemma ConservedStep(l: Log, e: Event)
    requires Conserved(l)
    ensures Conserved(Record(l, e))
  {
    UcsraShowsReady(l.uart);
    var u := l.uart;
    match e
    case Injected(b) =>
      assert l.consumed + (Buffered(u) + [b]) == l.injected + [b];
      assert Buffered(Inject(u, b)) == Buffered(u) + [b];
    case Polled =>
      assert Buffered(Poll(u).uart) == Buffered(u);
    case ReadAt(a) =>
      if IsDataRegister(a) && u.hwReady {
        assert Buffered(u) == [u.hwByte] + Buffered(Consume(u).uart);
      }
    case WroteAt(a, v) =>
      assert Buffered(WriteRegister(u, a, v).uart) == Buffered(u);
    case PoppedTx =>
  }

  // ------------------------------------------------------------------ what firmware can do to the streams

  predicate IsSuffix(s: seq<Byte>, t: seq<Byte>) {
    |s| <= |t| && s == t[|t| - |s|..]
  }

  /** From u to v some buffered bytes were consumed from the front and some bytes were transmitted. */
  predicate Flows(u: State, v: State) {
    IsSuffix(Buffered(v), Buffered(u)) && u.tx <= v.tx
  }

  lemma FlowsTransitive(u: State, v: State, w: State)
    requires Flows(u, v) && Flows(v, w)
    ensures Flows(u, w)
  {
  }

  lemma SameFlows(u: State, v: State)
    requires Buffered(v) == Buffered(u) && u.tx <= v.tx
    ensures Flows(u, v)
  {
  }

  lemma PollFlows(u: State)
    ensures Flows(u, Poll(u).uart)
  {
    hide Flows;
    assert Buffered(Poll(u).uart) == Buffered(u);
    SameFlows(u, Poll(u).uart);
  }

  lemma ReadFlows(u: State, ioAddr: Byte)
    ensures Flows(u, ReadRegister(u, ioAddr).uart)
  {
    if ReadRegister(u, ioAddr).uart == u {
      SameFlows(u, u);
    } else {
      hide IsSuffix;
      assert ReadRegister(u, ioAddr).uart == Consume(u).uart;
      DropIsSuffix(u.hwByte, u.rxQueue);
    }
  }

  lemma DropIsSuffix(b: Byte, s: seq<Byte>)
    ensures IsSuffix([] + s, [b] + s)
  {
  }

  lemma WriteFlows(u: State, ioAddr: Byte, value: Byte)
    ensures Flows(u, WriteRegister(u, ioAddr, value).uart)
  {
    hide Flows;
    SameFlows(u, WriteRegister(u, ioAddr, value).uart);
  }

  // ------------------------------------------------------------------ the peripheral

  class Peripheral {
    var rxQueue: seq<Byte>
    var rxHwReady: bool
    var rxHwByte: Byte
    var txBuffer: seq<Byte>
    var ubrrl: Byte
    var ucsrb: Byte
    var ucsrc: Byte

    function View(): State
      reads this
    {
      State(rxQueue, rxHwReady, rxHwByte, txBuffer, ubrrl, ucsrb, ucsrc)
    }

    constructor ()
      ensures View() == State([], false, 0, [], 0, 0, 0)
    {
      rxQueue, rxHwReady, rxHwByte, txBuffer := [], false, 0, [];
      ubrrl, ucsrb, ucsrc := 0, 0, 0;
    }

    method PopTx() returns (text: seq<Byte>)
      modifies this
      ensures text == old(txBuffer) && View() == old(View()).(tx := [])
    {
      text := txBuffer;
      txBuffer := [];
    }

    method InjectRx(b: Byte)
      modifies this
      ensures View() == Inject(old(View()), b)
    {
      rxQueue := rxQueue + [b];
    }

    method PollRx(irq: InterruptController)
      modifies this, irq
      ensures View() == Poll(old(View())).uart
      ensures irq.pending == RaiseAll(old(irq.pending), Poll(old(View())).raised)
    {
      var byteReady := false;
      if !rxHwReady && rxQueue != [] {
        rxHwByte := rxQueue[0];
        rxQueue := rxQueue[1..];
        rxHwReady := true;
        byteReady := true;
      }
      if byteReady && Bit(ucsrb, RXCIE) {
        irq.RaiseVector(USART_RX);
      }
    }

    method ReadReg(ioAddr: Byte) returns (value: Byte)
      modifies this
      ensures ReadResult(View(), value) == ReadRegister(old(View()), ioAddr)
    {
      match ioAddr
      case 0x00 => value := Ucsra(View());
      case 0x01 => value := ucsrb;
      case 0x02 => value := ucsrc;
      case 0x04 => value := ubrrl;
      case 0x06 => value := ConsumeByte();
      case 0x09 => value := ubrrl;
      case 0x0A => value := ucsrb;
      case 0x0B => value := Ucsra(View());
      case 0x0C => value := ConsumeByte();
      case 0x0D => value := ucsrc;
      case _ => value := 0;
    }

    method ConsumeByte() returns (value: Byte)
      modifies this
      ensures ReadResult(View(), value) == Consume(old(View()))
    {
      if rxHwReady {
        rxHwReady := false;
        return rxHwByte;
      }
      value := 0;
    }

    method WriteReg(ioAddr: Byte, value: Byte, irq: InterruptController)
      modifies this, irq
      ensures View() == WriteRegister(old(View()), ioAddr, value).uart
      ensures irq.pending == RaiseAll(old(irq.pending), WriteRegister(old(View()), ioAddr, value).raised)
    {
      match ioAddr
      case 0x01 => WriteControl(value, irq);
      case 0x02 => ucsrc := value;
      case 0x04 => ubrrl := value;
      case 0x06 => TransmitByte(value, irq);
      case 0x09 => ubrrl := value;
      case 0x0A => WriteControl(value, irq);
      case 0x0C => TransmitByte(value, irq);
      case 0x0D => ucsrc := value;
      case _ =>
    }

    method WriteControl(value: Byte, irq: InterruptController)
      modifies this, irq
      ensures View() == Control(old(View()), value).uart
      ensures irq.pending == RaiseAll(old(irq.pending), Control(old(View()), value).raised)
    {
      ucsrb := value;
      if Bit(value, UDRIE) {
        irq.RaiseVector(USART_UDRE);
      }
    }

    method TransmitByte(value: Byte, irq: InterruptController)
      modifies this, irq
      ensures View() == Transmit(old(View()), value).uart
      ensures irq.pending == RaiseAll(old(irq.pending), Transmit(old(View()), value).raised)
    {
      ghost var first := if Bit(ucsrb, TXCIE) then [USART_TX] else [];
      RaiseAllSplits(irq.pending, first, USART_UDRE);
      assert first + [] == first;
      txBuffer := txBuffer + [value];
      if Bit(ucsrb, TXCIE) {
        irq.RaiseVector(USART_TX);
      }
      if Bit(ucsrb, UDRIE) {
        irq.RaiseVector(USART_UDRE);
      }
    }
  }
}
