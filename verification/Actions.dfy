/** The completion callbacks of src/l0006-0/netcmd.c: what they write through outret and whom they wake. */
module Actions {
  import opened Bytes
  import opened Netcmd
  import opened Task
  import TaskWait

  /** The codes of src/l0006-0/netcmd.h. */
  function Code(o: Outcome): int {
    match o
    case Success => 0
    case Fail => 1
    case Timeout => 2
  }

  /** The contents of a buffer, or what it is after a copy from outside the program's memory. */
  datatype Memory = Bytes(data: seq<byte>) | Undefined

  /** The issuer of a command: the task that waits for it, and what the callback writes to. */
  class Caller {
    const task: Task
    var outret: int
    var reply: seq<byte>    // *pp_packet, where the callback stores a copy of the reply
    var config: Memory      // the buffer for configuration bytes

    constructor (task: Task)
      ensures this.task == task && outret == 0 && reply == [] && config == Bytes([])
    {
      this.task := task;
      outret, reply, config := 0, [], Bytes([]);
    }
  }

  /** The callback has done what completion c says: the outcome is recorded, and the waiting task takes the step of a
      wakeup or none. */
  twostate predicate Did(caller: Caller, c: Completion)
    reads caller, caller.task
  {
    && caller.outret == Code(c.outcome)
    && caller.task.View() == if c.wakes then TaskWait.Step(old(caller.task.View()), TaskWait.Wakeup)
                             else old(caller.task.View())
  }

  /** Where the configuration bytes of a SAVECONF acknowledgement begin, and how many the packet declares. */
  const CONFIG: nat := HEADER_SIZE + 2

  function Declared(p: seq<byte>): nat
    requires |p| >= EX_HEADER_SIZE
  {
    p[HEADER_SIZE + 1] as nat
  }

  /** The bytes memcpy reads from packet p on, where behind are the bytes between the packet and the end of the receive
      buffer; nobody looks whether the declared number of bytes is in the packet. */
  function ConfigIn(p: seq<byte>, behind: seq<byte>): Memory
    requires |p| >= EX_HEADER_SIZE
  {
    var all, end := p + behind, CONFIG + Declared(p);
    if end <= |all| then Bytes(all[CONFIG..end]) else Undefined
  }

  /** The copy is made of the packet's own bytes, whatever stands behind it, if and only if it declares at most 54. */
  lemma ConfigStaysInPacketIff(p: seq<byte>)
    requires |p| == EX_HEADER_SIZE
    ensures (forall behind :: ConfigIn(p, behind) == ConfigIn(p, [])) <==> Declared(p) <= EX_HEADER_SIZE - CONFIG
    ensures Declared(p) <= EX_HEADER_SIZE - CONFIG ==> ConfigIn(p, []) == Bytes(p[CONFIG..CONFIG + Declared(p)])
  {
    var n := Declared(p);
    if n <= EX_HEADER_SIZE - CONFIG {
      forall behind ensures ConfigIn(p, behind) == ConfigIn(p, []) {
        assert (p + behind)[CONFIG..CONFIG + n] == p[CONFIG..CONFIG + n] == (p + [])[CONFIG..CONFIG + n];
      }
    } else {
      var behind := seq(n, _ => 0);
      assert ConfigIn(p, behind).Bytes? && ConfigIn(p, []).Undefined?;
    }
  }

  /** memcpy to the start of a buffer. */
  function Over(buf: Memory, data: Memory): Memory {
    if buf.Bytes? && data.Bytes? && |data.data| <= |buf.data| then Bytes(data.data + buf.data[|data.data|..]) else data
  }

  /** before and after a copy that stays in the packet and in the issuer's buffer. */
  predicate Copied(before: Memory, after: Memory, p: seq<byte>) {
    before.Bytes? && |p| >= 64 && p[9] as nat <= 54 && p[9] as nat <= |before.data| ==>
      var n := p[9] as nat; after == Bytes(p[10..10 + n] + before.data[n..])
  }

  lemma OverCopies(before: Memory, p: seq<byte>, behind: seq<byte>)
    requires |p| >= 64
    ensures Copied(before, Over(before, ConfigIn(p, behind)), p)
  {
    if before.Bytes? && p[9] as nat <= 54 && p[9] as nat <= |before.data| {
      var n := p[9] as nat;
      assert (p + behind)[10..10 + n] == p[10..10 + n];
    }
  }

  /** What the issuer's copies become. */
  function ReplyKept(action: Action, c: Completion, p: seq<byte>, before: seq<byte>): seq<byte> {
    if action.WithCopy? && action.keep && c.outcome.Success? && |p| >= HEADER_SIZE then p[..HEADER_SIZE] else before
  }

  function ConfigKept(action: Action, c: Completion, p: seq<byte>, behind: seq<byte>, before: Memory): Memory {
    if action.Extended? && action.sz != 0 && c.outcome.Success? && |p| >= EX_HEADER_SIZE && p[CMD] == SAVECONFACK
    then Over(before, ConfigIn(p, behind)) else before
  }

  /** All a callback does to its issuer. */
  twostate predicate Served(caller: Caller, action: Action, c: Completion, p: seq<byte>, behind: seq<byte>)
    reads caller, caller.task
  {
    && Did(caller, c)
    && caller.reply == ReplyKept(action, c, p, old(caller.reply))
    && caller.config == ConfigKept(action, c, p, behind, old(caller.config))
  }

  /** l0006_netcmd_general_action */
  method GeneralAction(cmd: byte, caller: Caller, p: seq<byte>, timedout: bool) returns (ret: int)
    requires timedout || ReplyPacket(p)
    modifies caller`outret, caller.task
    ensures var c := if timedout then OnTimeout() else OnReply(General, cmd, p);
            ret == c.ret && Did(caller, c)
    ensures timedout ==> caller.outret == 2 && ret == -1
    ensures !timedout && p[2] as int == AckCommand(cmd) ==> caller.outret == 0 && ret == 0
    ensures !timedout && p[2] as int != AckCommand(cmd) ==> caller.outret == 1 && ret == -1
    ensures caller.task.wakeupEarly <==> old(caller.task.wakeupEarly) || caller.outret != 1
  {
    if !timedout {
      if p[CMD] as int == AckCommand(cmd) {
        caller.outret := 0;
        caller.task.Wakeup();
        return 0;
      } else {
        caller.outret := 1;
      }
    } else {
      caller.outret := 2;
      caller.task.Wakeup();
    }
    ret := -1;
  }

  /** l0006_netcmd_general_action2: as above, and the first eight bytes of the reply are kept. */
  method GeneralAction2(cmd: byte, caller: Caller, keep: bool, p: seq<byte>, timedout: bool) returns (ret: int)
    requires timedout || ReplyPacket(p)
    modifies caller`outret, caller`reply, caller.task
    ensures var c := if timedout then OnTimeout() else OnReply(WithCopy(keep), cmd, p);
            && ret == c.ret && Did(caller, c)
            && caller.reply == ReplyKept(WithCopy(keep), c, p, old(caller.reply))
    ensures timedout ==> caller.outret == 2 && ret == -1
    ensures !timedout && p[2] as int == AckCommand(cmd) ==> caller.outret == 0 && ret == 0
    ensures !timedout && p[2] as int != AckCommand(cmd) ==> caller.outret == 1 && ret == -1
    ensures caller.task.wakeupEarly <==> old(caller.task.wakeupEarly) || caller.outret != 1
    ensures caller.reply == if keep && ret == 0 then p[..8] else old(caller.reply)
  {
    if !timedout {
      if p[CMD] as int == AckCommand(cmd) {
        if keep {
          caller.reply := p[..HEADER_SIZE];
        }
        caller.outret := 0;
        caller.task.Wakeup();
        return 0;
      } else {
        caller.outret := 1;
      }
    } else {
      caller.outret := 2;
      caller.task.Wakeup();
    }
    ret := -1;
  }

  method JudgeConfig(caller: Caller, p: seq<byte>, behind: seq<byte>, sz: byte)
    requires |p| >= EX_HEADER_SIZE
    modifies caller`outret, caller`config
    ensures var good := p[HEADER_SIZE] == SAVECONF_FLAG_SUCCESS && (sz == 0 || p[HEADER_SIZE + 1] < sz);
            && caller.outret == (if good then 0 else 1)
            && caller.config
                 == (if good && sz != 0 then Over(old(caller.config), ConfigIn(p, behind)) else old(caller.config))
            && (good && sz != 0 ==> Copied(old(caller.config), caller.config, p))
  {
    var flag, length := p[HEADER_SIZE], p[HEADER_SIZE + 1];
    if flag == SAVECONF_FLAG_SUCCESS {
      if sz == 0 {
        caller.outret := 0;
      } else if length < sz {
        OverCopies(caller.config, p, behind);
        caller.config := Over(caller.config, ConfigIn(p, behind));
        caller.outret := 0;
      } else {
        caller.outret := 1;
      }
    } else {
      caller.outret := 1;
    }
  }

  /** l0006_netcmd_ex_general_action: as the first, with a judgement on the flag and length of a SAVECONF reply, and a
      copy of as many bytes as it declares into the issuer's buffer of sz bytes, out of the packet and on into whatever
      stands behind it. */
  method ExtendedAction(cmd: byte, caller: Caller, sz: byte, p: seq<byte>, behind: seq<byte>, timedout: bool)
    returns (ret: int)
    requires timedout || ReplyPacket(p)
    modifies caller`outret, caller`config, caller.task
    ensures var c := if timedout then OnTimeout() else OnReply(Extended(sz), cmd, p);
            && ret == c.ret && Did(caller, c)
            && caller.config == ConfigKept(Extended(sz), c, p, behind, old(caller.config))
    ensures timedout ==> caller.outret == 2 && ret == -1
    ensures !timedout && p[2] as int != AckCommand(cmd) ==> caller.outret == 1 && ret == -1
    ensures !timedout && p[2] as int == AckCommand(cmd) && p[2] != 0x88 ==> caller.outret == 0 && ret == 0
    ensures !timedout && p[2] as int == AckCommand(cmd) && p[2] == 0x88 ==>
              ret == 0 && caller.outret == (if p[8] == 0x9A && (sz == 0 || p[9] < sz) then 0 else 1)
    ensures caller.task.wakeupEarly <==> old(caller.task.wakeupEarly) || timedout || ret == 0
    ensures timedout || p[2] != 0x88 || caller.outret != 0 || sz == 0 ==> caller.config == old(caller.config)
    ensures !timedout && p[2] == 0x88 && caller.outret == 0 && sz != 0 ==> Copied(old(caller.config), caller.config, p)
  {
    if !timedout {
      if p[CMD] as int == AckCommand(cmd) {
        if p[CMD] == SAVECONFACK {
          JudgeConfig(caller, p, behind, sz);
        } else {
          caller.outret := 0;
        }
        caller.task.Wakeup();
        return 0;
      } else {
        caller.outret := 1;
      }
    } else {
      caller.outret := 2;
      caller.task.Wakeup();
    }
    ret := -1;
  }

  /** action->actioncb(action->in, action->out, packet, timedout) */
  method Invoke(action: Action, cmd: byte, caller: Caller, p: seq<byte>, behind: seq<byte>, timedout: bool)
    requires timedout || ReplyPacket(p)
    modifies caller, caller.task
    ensures var c := if timedout then OnTimeout() else OnReply(action, cmd, p);
            Served(caller, action, c, p, behind)
    ensures timedout ==> caller.outret == 2
    ensures !timedout && p[2] as int != AckCommand(cmd) ==> caller.outret == 1
    ensures !timedout && p[2] as int == AckCommand(cmd) && !(action.Extended? && p[2] == 0x88) ==> caller.outret == 0
  {
    match action
    case General => var _ := GeneralAction(cmd, caller, p, timedout);
    case WithCopy(keep) => var _ := GeneralAction2(cmd, caller, keep, p, timedout);
    case Extended(sz) => var _ := ExtendedAction(cmd, caller, sz, p, behind, timedout);
  }

  /** The issuer is woken by its own acknowledgement or by the timeout, and by nothing else: a packet that carries the
      right sequence number but acknowledges another command ends the command as failed without waking anyone. */
  lemma WokenIff(action: Action, cmd: byte, p: seq<byte>)
    requires ReplyPacket(p)
    ensures OnReply(action, cmd, p).wakes <==> p[CMD] as int == AckCommand(cmd)
    ensures !OnReply(action, cmd, p).wakes ==> OnReply(action, cmd, p).outcome == Fail
    ensures OnTimeout().wakes
  {
  }
}
