/** The record passed through the ring buffer (src/include/syscall_tracing.h). */
module SyscallEvents {
  import opened CTypes

  const MAX_BUF_SIZE := 128
  const STR_SIZE := MAX_BUF_SIZE + 1

  // enum syscall_event_type
  const EVENT_PTRACE := 0
  const EVENT_READ := 1
  const EVENT_EXECVE := 2
  const EVENT_FORK := 3
  const EVENT_CLONE := 4
  const EVENT_MPROTECT := 5
  const EVENT_OPENAT := 6
  const EVENT_MMAP := 7
  const EVENT_WRITE := 8
  const EVENT_CHOWN := 9
  const EVENT_MOUNT := 10
  const EVENT_UMOUNT := 11
  const EVENT_IOCTL := 12
  const EVENT_SETUID := 13
  const EVENT_SETGID := 14
  const EVENT_CAPSET := 15
  const EVENT_PRCTL := 16
  const EVENT_KEYCTL := 17

  datatype Which = Str1 | Str2 | Str3

  /** struct syscall_event_t, as a value */
  datatype Event = Event(kind: int, pid: I32, args: seq<U64>, str1: string, str2: string, str3: string) {
    predicate WellFormed() {
      |args| == 6 && |str1| == STR_SIZE && |str2| == STR_SIZE && |str3| == STR_SIZE
    }

    function Str(w: Which): string {
      match w case Str1 => str1 case Str2 => str2 case Str3 => str3
    }

    function WithStr(w: Which, s: string): Event {
      match w case Str1 => this.(str1 := s) case Str2 => this.(str2 := s) case Str3 => this.(str3 := s)
    }
  }

  /** The same record in ring-buffer memory. */
  class EventRecord {
    var kind: int
    var pid: I32
    const args: array<U64>
    const str1: array<char>
    const str2: array<char>
    const str3: array<char>

    ghost predicate Valid() {
      && args.Length == 6
      && str1.Length == STR_SIZE && str2.Length == STR_SIZE && str3.Length == STR_SIZE
      && str1 != str2 && str1 != str3 && str2 != str3
    }

    ghost function Value(): (e: Event)
      reads this, args, str1, str2, str3
      requires Valid()
      ensures e.WellFormed()
    {
      Event(kind, pid, args[..], str1[..], str2[..], str3[..])
    }

    /** A reserved record holds whatever the ring memory held. */
    constructor (stale: Event)
      requires stale.WellFormed()
      ensures Valid() && Value() == stale
      ensures fresh(args) && fresh(str1) && fresh(str2) && fresh(str3)
    {
      kind, pid := stale.kind, stale.pid;
      args := new U64[6](i requires 0 <= i < 6 => stale.args[i]);
      str1 := new char[STR_SIZE](i requires 0 <= i < STR_SIZE => stale.str1[i]);
      str2 := new char[STR_SIZE](i requires 0 <= i < STR_SIZE => stale.str2[i]);
      str3 := new char[STR_SIZE](i requires 0 <= i < STR_SIZE => stale.str3[i]);
      new;
      assert args[..] == stale.args && str1[..] == stale.str1 && str2[..] == stale.str2 && str3[..] == stale.str3;
    }
  }

  // ----- layout

  function RoundUp(n: nat, align: nat): nat
    requires 0 < align
  {
    (n + align - 1) / align * align
  }

  /** Two 4-byte fields, six 8-byte arguments, three strings, aligned to 8. */
  const EVENT_SIZE := RoundUp(4 + 4 + 6 * 8 + 3 * STR_SIZE, 8)

  /** The ring buffer puts an 8-byte header before each record and aligns to 8. */
  const RECORD_SIZE := RoundUp(EVENT_SIZE + 8, 8)

  const RING_SIZE := 4096
}
