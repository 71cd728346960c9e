/**
 * Virtual terminals on one up-buffer. A byte 0xFF followed by the character of a terminal id
 * switches the host's output window; everything else is text for the current window.
 */
module Terminal {
  import opened Machine
  import opened Ring
  import opened RttBuffer

  const TERMINALS := 16

  /** _aTerminalId: '0' to '9', then 'A' to 'F'. */
  function IdChar(id: nat): Byte
    requires id < TERMINALS
  {
    if id < 10 then 48 + id else 55 + id
  }

  function SwitchTo(id: nat): seq<Byte>
    requires id < TERMINALS
  {
    [0xFF, IdChar(id)]
  }

  // ---------------------------------------------------------------- the host's side

  /** The demultiplexer of the host: the current terminal, and whether an escape byte has just arrived. */
  datatype Demux = Demux(current: nat, escaped: bool)

  type Tagged = (nat, Byte)

  function Accept(d: Demux, b: Byte): (Demux, seq<Tagged>) {
    if !d.escaped then
      if b == 0xFF then (d.(escaped := true), []) else (d, [(d.current, b)])
    else if 48 <= b < 58 then (Demux(b - 48, false), [])
    else if 65 <= b < 71 then (Demux(b - 55, false), [])
    else (d.(escaped := false), [])
  }

  /** The terminal of every text byte of a stream, in order, and the state at its end. */
  function Shown(d: Demux, s: seq<Byte>): (r: (Demux, seq<Tagged>))
    decreases |s|
  {
    if s == [] then (d, [])
    else
      var (d1, out) := Accept(d, s[0]);
      var (d2, rest) := Shown(d1, s[1..]);
      (d2, out + rest)
  }

  function Tag(id: nat, s: seq<Byte>): (r: seq<Tagged>)
    ensures |r| == |s|
  {
    if s == [] then [] else [(id, s[0])] + Tag(id, s[1..])
  }

  lemma {:induction false} ShownConcat(d: Demux, s: seq<Byte>, t: seq<Byte>)
    ensures var (d1, out1) := Shown(d, s); var (d2, out2) := Shown(d1, t);
            Shown(d, s + t) == (d2, out1 + out2)
    decreases |s|
  {
    if s == [] {
      assert s + t == t && [] + Shown(d, t).1 == Shown(d, t).1;
    } else {
      assert (s + t)[1..] == s[1..] + t;
      var (d0, out0) := Accept(d, s[0]);
      var (d1, rest) := Shown(d0, s[1..]);
      var (d2, out2) := Shown(d1, t);
      ShownConcat(d0, s[1..], t);
      assert out0 + (rest + out2) == out0 + rest + out2;
    }
  }

  lemma {:induction false} ShownShorter(d: Demux, s: seq<Byte>)
    ensures |Shown(d, s).1| <= |s|
    decreases |s|
  {
    if s != [] {
      ShownShorter(Accept(d, s[0]).0, s[1..]);
    }
  }

  /** Text reaches the current terminal unchanged, and leaves it current, exactly when it has no escape byte. */
  lemma {:induction false} ShownText(id: nat, s: seq<Byte>)
    ensures Shown(Demux(id, false), s) == (Demux(id, false), Tag(id, s)) <==> 0xFF !in s
  {
    if s != [] {
      var d := Demux(id, false);
      if s[0] == 0xFF {
        ShownShorter(Accept(d, s[0]).0, s[1..]);
        assert |Shown(d, s).1| < |s|;
      } else {
        ShownText(id, s[1..]);
        TagTail(id, s);
      }
    }
  }

  lemma TagTail(id: nat, s: seq<Byte>)
    requires s != [] && s[0] != 0xFF
    ensures var (d, out) := Shown(Demux(id, false), s[1..]);
            Shown(Demux(id, false), s) == (d, [(id, s[0])] + out)
    ensures Tag(id, s) == [(id, s[0])] + Tag(id, s[1..]) && Tag(id, s)[1..] == Tag(id, s[1..])
    ensures 0xFF in s <==> 0xFF in s[1..]
    ensures ([(id, s[0])] + Shown(Demux(id, false), s[1..]).1)[1..] == Shown(Demux(id, false), s[1..]).1
  {}

  lemma ShownSwitch(from: nat, id: nat)
    requires id < TERMINALS
    ensures Shown(Demux(from, false), SwitchTo(id)) == (Demux(id, false), [])
  {
    var d, c := Demux(from, true), [IdChar(id)];
    assert SwitchTo(id)[1..] == c && c[1..] == [];
    assert Accept(d, c[0]) == (Demux(id, false), []);
    var none: seq<Tagged> := [];
    assert none + none == none;
    assert Shown(d, c) == (Demux(id, false), none);
  }

  // ---------------------------------------------------------------- the target's side

  datatype Call = Write(data: seq<Byte>) | SetTerminal(id: nat) | TerminalOut(id: nat, text: seq<Byte>)

  /** The terminal functions look at the two mode bits only. */
  function Masked(flags: nat): Mode {
    ModeOf(flags % 4)
  }

  /** How much of the text of a call gets into a buffer with `avail` free bytes; -1 if not even the switch does. */
  function Kept(flags: nat, avail: nat, call: Call): int {
    match call
    case Write(data) => (match ModeOf(flags)
      case Skip => if |data| <= avail then |data| else 0
      case Trim => Min(avail, |data|)
      case Block => |data|
      case Other => 0)
    case SetTerminal(id) => if id < TERMINALS && (Masked(flags).Block? || avail >= 2) then 0 else -1
    case TerminalOut(id, text) =>
      if id >= TERMINALS then -1
      else (match Masked(flags)
        case Skip => if avail < |text| + 4 then -1 else |text|
        case Trim => if avail < 4 then -1 else Min(|text|, avail - 4)
        case Block => |text|
        case Other => -1)
  }

  /** The bytes a call sends and the active terminal after it. */
  function Sent(flags: nat, avail: nat, active: nat, call: Call): (r: (seq<Byte>, nat))
    requires active < TERMINALS
    ensures r.1 < TERMINALS
  {
    var k := Kept(flags, avail, call);
    if k < 0 then ([], active)
    else match call
      case Write(data) => (data[..k], active)
      case SetTerminal(id) => (SwitchTo(id), id)
      case TerminalOut(id, text) => (SwitchTo(id) + text[..k] + SwitchTo(active), active)
  }

  /** What the host is meant to show for it. */
  function Meant(flags: nat, avail: nat, active: nat, call: Call): seq<Tagged> {
    var k := Kept(flags, avail, call);
    if k < 0 then []
    else match call
      case Write(data) => Tag(active, data[..k])
      case SetTerminal(id) => []
      case TerminalOut(id, text) => Tag(id, text[..k])
  }

  ghost predicate PlainText(call: Call) {
    match call
    case Write(data) => 0xFF !in data
    case SetTerminal(_) => true
    case TerminalOut(_, text) => 0xFF !in text
  }

  lemma OutShown(id: nat, text: seq<Byte>, active: nat)
    requires id < TERMINALS && active < TERMINALS && 0xFF !in text
    ensures Shown(Demux(active, false), SwitchTo(id) + text + SwitchTo(active)) == (Demux(active, false), Tag(id, text))
  {
    var d := Demux(active, false);
    ShownConcat(d, SwitchTo(id) + text, SwitchTo(active));
    ShownConcat(d, SwitchTo(id), text);
    ShownSwitch(active, id);
    ShownText(id, text);
    ShownSwitch(id, active);
    assert [] + Tag(id, text) + [] == Tag(id, text);
  }

  /** A call shows what it is meant to, on the terminal it is meant for, and leaves the host on the active terminal. */
  lemma CallShown(flags: nat, avail: nat, active: nat, call: Call)
    requires active < TERMINALS && PlainText(call)
    ensures var (bytes, active') := Sent(flags, avail, active, call);
            Shown(Demux(active, false), bytes) == (Demux(active', false), Meant(flags, avail, active, call))
  {
    var k := Kept(flags, avail, call);
    if k >= 0 {
      match call {
        case Write(data) => ShownText(active, data[..k]);
        case SetTerminal(id) => ShownSwitch(active, id);
        case TerminalOut(id, text) => OutShown(id, text[..k], active);
      }
    }
  }

  /** The stream of a run of calls; avails[i] is the room that call i finds. */
  function Stream(flags: nat, avails: seq<nat>, active: nat, calls: seq<Call>): (r: (seq<Byte>, nat))
    requires active < TERMINALS && |avails| == |calls|
    ensures r.1 < TERMINALS
  {
    if calls == [] then ([], active)
    else
      var (bytes, a) := Sent(flags, avails[0], active, calls[0]);
      var (rest, last) := Stream(flags, avails[1..], a, calls[1..]);
      (bytes + rest, last)
  }

  function MeantAll(flags: nat, avails: seq<nat>, active: nat, calls: seq<Call>): seq<Tagged>
    requires active < TERMINALS && |avails| == |calls|
  {
    if calls == [] then []
    else Meant(flags, avails[0], active, calls[0]) +
         MeantAll(flags, avails[1..], Sent(flags, avails[0], active, calls[0]).1, calls[1..])
  }

  /** Over any run of calls, in any mode and with any room, the host shows every text on its own terminal. */
  lemma {:induction false} RunShown(flags: nat, avails: seq<nat>, active: nat, calls: seq<Call>)
    requires active < TERMINALS && |avails| == |calls| && forall c :: c in calls ==> PlainText(c)
    ensures var (bytes, last) := Stream(flags, avails, active, calls);
            Shown(Demux(active, false), bytes) == (Demux(last, false), MeantAll(flags, avails, active, calls))
  {
    if calls != [] {
      var (bytes, a) := Sent(flags, avails[0], active, calls[0]);
      var (rest, last) := Stream(flags, avails[1..], a, calls[1..]);
      CallShown(flags, avails[0], active, calls[0]);
      RunShown(flags, avails[1..], a, calls[1..]);
      ShownConcat(Demux(active, false), bytes, rest);
    }
  }

  /** What three successive writes hand over, taken together. */
  lemma Gather(u0: seq<Byte>, u1: seq<Byte>, u2: seq<Byte>, u3: seq<Byte>, t1: seq<Byte>, t2: seq<Byte>, t3: seq<Byte>,
               a: seq<Byte>, b: seq<Byte>, c: seq<Byte>)
    requires t1 + u1 == u0 + a && t2 + u2 == u1 + b && t3 + u3 == u2 + c
    ensures t1 + t2 + t3 + u3 == u0 + (a + b + c)
  {
    assert t1 + t2 + t3 + u3 == t1 + (t2 + (t3 + u3));
    assert t1 + (t2 + (u2 + c)) == t1 + (t2 + u2) + c;
    assert t1 + (u1 + b) + c == t1 + u1 + b + c;
    assert u0 + a + b + c == u0 + (a + b + c);
  }

  class Terminals {
    const up: UpBuffer
    var active: nat

    ghost predicate Valid()
      reads this, up
    {
      up.Valid() && active < TERMINALS
    }

    ghost function Keeps(call: Call): int
      requires Valid()
      reads this, up, up.buf
    {
      Kept(up.flags, Avail(up.State()), call)
    }

    ghost function Sends(call: Call): (seq<Byte>, nat)
      requires Valid()
      reads this, up, up.buf
    {
      Sent(up.flags, Avail(up.State()), active, call)
    }

    constructor (up: UpBuffer)
      requires up.Valid()
      ensures Valid() && this.up == up && active == 0
    {
      this.up := up;
      active := 0;
    }

    /** SEGGER_RTT_SetTerminal. In blocking mode it is done once the host has made room. */
    method SetTerminal(id: nat, host: seq<nat>) returns (status: int, done: bool, ghost taken: seq<Byte>)
      requires Valid()
      modifies `active, up, up.buf
      ensures Valid() && up.flags == old(up.flags)
      ensures (status, active) == old((if Keeps(Call.SetTerminal(id)) < 0 then -1 else 0,
                                       Sends(Call.SetTerminal(id)).1))
      ensures done ==> taken + up.Unread() == old(up.Unread()) + old(Sends(Call.SetTerminal(id)).0)
      ensures status == 0 <==> id < TERMINALS && (up.flags % 4 == 2 || old(Avail(up.State())) >= 2)
      ensures active == if status == 0 then id else old(active)
      ensures done ==> taken + up.Unread() == old(up.Unread()) + if status == 0 then SwitchTo(id) else []
      ensures old(!Masked(up.flags).Block?) || (Diligent(host, 2) && up.buf.Length >= 2) ==> done
    {
      hide Written, Diligent, IdChar;
      status, done, taken := 0, true, [];
      if id < TERMINALS {
        var ac := SwitchTo(id);
        if Masked(up.flags).Block? {
          active := id;
          var written;
          written, taken := up.WriteBlocking(ac, host);
          done := written == 2;
          assert ac[..2] == ac;
        } else {
          var avail := up.GetAvailWriteSpace();
          if avail >= 2 {
            active := id;
            WrittenContents(up.State(), ac);
            up.WriteNoCheck(ac);
          } else {
            status := -1;
          }
        }
      } else {
        status := -1;
      }
    }

    /** _PostTerminalSwitch, the text and _PostTerminalSwitch again. */
    method Post(id: nat, text: seq<Byte>, host: seq<seq<nat>>) returns (written: nat, done: bool, ghost taken: seq<Byte>)
      requires Valid() && id < TERMINALS && |host| == 3
      modifies up`rd, up`wr, up.buf
      ensures Valid()
      ensures done ==> written == |text|
      ensures done ==> taken + up.Unread() == old(up.Unread()) + (SwitchTo(id) + text + SwitchTo(active))
      ensures |text| + 4 <= old(Avail(up.State())) && (forall i :: 0 <= i < 3 ==> |host[i]| >= 2) ==> done
      ensures up.buf.Length >= 2 && (forall i :: 0 <= i < 3 ==> Diligent(host[i], |text| + 2)) ==> done
    {
      ghost var u0 := up.Unread();
      var n, last;
      ghost var t1, t2, t3;
      n, t1 := up.WriteBlocking(SwitchTo(id), host[0]);
      ghost var u1 := up.Unread();
      written, t2 := up.WriteBlocking(text, host[1]);
      ghost var u2 := up.Unread();
      last, t3 := up.WriteBlocking(SwitchTo(active), host[2]);
      done := n == 2 && written == |text| && last == 2;
      taken := t1 + t2 + t3;
      if done {
        assert SwitchTo(id)[..2] == SwitchTo(id) && text[..|text|] == text && SwitchTo(active)[..2] == SwitchTo(active);
        Gather(u0, u1, u2, up.Unread(), t1, t2, t3, SwitchTo(id), text, SwitchTo(active));
      }
    }

    /**
     * SEGGER_RTT_TerminalOut. Between the rounds of its three blocking writes the host takes what
     * host[0], host[1] and host[2] say, which may be nothing. In skip and trim mode two rounds are
     * enough for each: the room measured at the start suffices. Between the two switches skip mode
     * sends the text or nothing, trim mode the longest part of its beginning that fits together with
     * both switches, and blocking mode all of it.
     */
    method TerminalOut(id: nat, s: seq<Byte>, host: seq<seq<nat>>) returns (status: int, done: bool, ghost taken: seq<Byte>)
      requires Valid() && |host| == 3
      modifies up`rd, up`wr, up.buf
      ensures Valid()
      ensures done ==> taken + up.Unread() == old(up.Unread()) + old(Sends(Call.TerminalOut(id, s)).0)
      ensures done ==> status == if id < TERMINALS && Masked(up.flags).Skip? && old(Avail(up.State())) < |s| + 4 then 0
                                 else old(Keeps(Call.TerminalOut(id, s)))
      ensures id >= TERMINALS || up.flags % 4 == 3 ==> status == -1 && done && taken + up.Unread() == old(up.Unread())
      ensures id < TERMINALS && up.flags % 4 == 0 && done ==>
                var sent := |s| + 4 <= old(Avail(up.State()));
                && status == (if sent then |s| else 0)
                && taken + up.Unread() == old(up.Unread()) + if sent then SwitchTo(id) + s + SwitchTo(active) else []
      ensures id < TERMINALS && up.flags % 4 == 1 && old(Avail(up.State())) < 4 ==>
                status == -1 && done && taken + up.Unread() == old(up.Unread())
      ensures id < TERMINALS && up.flags % 4 == 1 && old(Avail(up.State())) >= 4 && done ==>
                && 0 <= status <= |s| && status + 4 <= old(Avail(up.State()))
                && (status == |s| || status + 4 == old(Avail(up.State())))
                && taken + up.Unread() == old(up.Unread()) + (SwitchTo(id) + s[..status] + SwitchTo(active))
      ensures id < TERMINALS && up.flags % 4 == 2 && done ==>
                status == |s| && taken + up.Unread() == old(up.Unread()) + (SwitchTo(id) + s + SwitchTo(active))
      ensures !Masked(up.flags).Block? && (forall i :: 0 <= i < 3 ==> |host[i]| >= 2) ==> done
      ensures up.buf.Length >= 2 && (forall i :: 0 <= i < 3 ==> Diligent(host[i], |s| + 2)) ==> done
    {
      status, done, taken := -1, true, [];
      if id < TERMINALS {
        var avail := up.GetAvailWriteSpace();
        match Masked(up.flags) {
          case Skip =>
            if avail < |s| + 4 {
              status := 0;
            } else {
              status, done, taken := Post(id, s, host);
              assert s[..|s|] == s;
            }
          case Trim =>
            if avail >= 4 {
              status, done, taken := Post(id, s[..Min(|s|, avail - 4)], host);
            }
          case Block =>
            status, done, taken := Post(id, s, host);
            assert s[..|s|] == s;
          case Other =>
        }
      }
    }
  }
}
