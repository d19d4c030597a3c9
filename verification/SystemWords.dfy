/**
 * instructions.h and syscalls.h, the system call word for each call number, and the words no
 * engine knows.
 */
module SystemWords {
  import opened Words
  import opened Machines
  import opened Instructions
  import opened Switch
  import opened Encoding

  // ----- system calls and undefined words -----

  lemma RSystem(h: Host, rs: nat, rt: nat, rd: nat, sh: nat, m: Machine)
    requires Fields(rs, rt, rd, sh)
    ensures ExecWord(h, RWord(rs, rt, rd, sh, 0xC), m) == Syscall(h, m)
  {
    hide Exec, ExecWord, RWord, Rs, Rt, Rd, Sh, Secondary, TypeOf, Syscall;
    SystemCodes();
    RExec(h, rs, rt, rd, sh, 0xC, m);
    SystemExec(h, SYSCALL, RWord(rs, rt, rd, sh, 0xC), m);
  }

  /** break ends the process; the special word that musl uses does nothing. */
  lemma BreakWords(h: Host, rs: nat, rt: nat, rd: nat, sh: nat, m: Machine)
    requires Fields(rs, rt, rd, sh)
    ensures ExecWord(h, RWord(rs, rt, rd, sh, 0xD), m) == None
    ensures ExecWord(h, RWord(rs, rt, rd, sh, 0xF), m) == Some(m)
  {
    hide Exec, ExecWord, RWord, Rs, Rt, Rd, Sh, Secondary, TypeOf;
    SystemCodes();
    RExec(h, rs, rt, rd, sh, 0xD, m);
    RExec(h, rs, rt, rd, sh, 0xF, m);
    SystemExec(h, BREAK, RWord(rs, rt, rd, sh, 0xD), m);
    SystemExec(h, SPECIAL, RWord(rs, rt, rd, sh, 0xF), m);
  }

  /** exit and exit_group: the status is a0. */
  lemma ExitCalls(h: Host, rs: nat, rt: nat, rd: nat, sh: nat, m: Machine)
    requires Fields(rs, rt, rd, sh) && (m.r[2] == 4001 || m.r[2] == 4246)
    ensures ExecWord(h, RWord(rs, rt, rd, sh, 0xC), m) == Some(m.(status := m.r[4], halted := true))
  {
    hide ExecWord, RWord, HostSyscall, Brk, Mmap2, SimpleSyscall;
    RSystem(h, rs, rt, rd, sh, m);
  }

  /** munmap, mprotect, set_tid_address, set_thread_area. */
  lemma PlainCalls(h: Host, rs: nat, rt: nat, rd: nat, sh: nat, m: Machine)
    requires Fields(rs, rt, rd, sh)
    ensures var x := ExecWord(h, RWord(rs, rt, rd, sh, 0xC), m);
            && (m.r[2] == 4091 ==> x == Some(m.(r := m.r[2 := 0][4 := 0])))
            && (m.r[2] == 4125 ==> x == Some(m.(r := m.r[2 := 0][7 := 0])))
            && (m.r[2] == 4252 ==> x == Some(m.(tidptr := m.r[4], r := m.r[2 := 1])))
            && (m.r[2] == 4283 ==> x == Some(m.(userLocal := m.r[4], r := m.r[2 := 0])))
  {
    hide ExecWord, RWord, HostSyscall, Brk, Mmap2;
    RSystem(h, rs, rt, rd, sh, m);
  }

  /** brk: the end rises to a0 if that is higher, with the pages it needs; v0 is the end. */
  lemma BrkCall(h: Host, rs: nat, rt: nat, rd: nat, sh: nat, m: Machine)
    requires Fields(rs, rt, rd, sh) && m.r[2] == 4045
    ensures ExecWord(h, RWord(rs, rt, rd, sh, 0xC), m) ==
            if m.r[4] > m.brkEnd then
              Some(m.(mem := Allocate(m.mem, m.brkEnd, m.r[4] - m.brkEnd), brkEnd := m.r[4], r := m.r[2 := m.r[4]]))
            else
              Some(m.(r := m.r[2 := m.brkEnd]))
  {
    hide ExecWord, RWord, HostSyscall, Mmap2, SimpleSyscall, Allocate;
    RSystem(h, rs, rt, rd, sh, m);
  }

  /** The length in whole pages, modulo 2^32. */
  function Rounded(len: int): Word {
    (len + 0xFFF) % 0x1_0000_0000 / 0x1000 * 0x1000
  }

  /** mmap2: a1 is rounded up to whole pages, which are mapped, cleared and returned in v0. */
  lemma Mmap2Call(h: Host, rs: nat, rt: nat, rd: nat, sh: nat, m: Machine)
    requires Fields(rs, rt, rd, sh) && m.r[2] == 4210
    ensures var a, len := m.mmapEnd, Rounded(m.r[5]);
            var x := ExecWord(h, RWord(rs, rt, rd, sh, 0xC), m);
            x.Some? ==>
              x == Some(m.(mem := Fill(Allocate(m.mem, a, len), a, len, 0), mmapEnd := Plus(a, len),
                           r := m.r[2 := a][7 := 0]))
  {
    hide ExecWord, RWord, HostSyscall, Brk, SimpleSyscall, Allocate, Fill, Covers, Raw;
    RSystem(h, rs, rt, rd, sh, m);
    assert RoundUp(m.r[5]) == Rounded(m.r[5]);
  }

  /** read, write, open, close, lseek, ioctl, writev, clock_gettime64. */
  predicate ForHost(nr: Word) {
    nr == 4003 || nr == 4004 || nr == 4005 || nr == 4006 || nr == 4019 || nr == 4054 || nr == 4146 || nr == 4403
  }

  /** What the host is told and what becomes of its answer. */
  lemma HostCalls(h: Host, rs: nat, rt: nat, rd: nat, sh: nat, m: Machine)
    requires Fields(rs, rt, rd, sh) && ForHost(m.r[2])
    ensures var calls := m.calls + [HostCall(m.r[2], m.r[4], m.r[5], m.r[6], m.r[7], m.mem)];
            ExecWord(h, RWord(rs, rt, rd, sh, 0xC), m) ==
            match h(calls)
            case Abort => None
            case Done(v0, a3, address, data) =>
              if |data| < 0x1_0000_0000 && Covers(m.mem, address, |data|) then
                Some(m.(calls := calls, mem := CopyIn(m.mem, address, data), r := m.r[2 := v0][7 := a3]))
              else None
  {
    hide ExecWord, RWord, Brk, Mmap2, SimpleSyscall, CopyIn, Covers;
    RSystem(h, rs, rt, rd, sh, m);
  }

  /** Any other number ends the process. */
  lemma UnknownCalls(h: Host, rs: nat, rt: nat, rd: nat, sh: nat, m: Machine)
    requires Fields(rs, rt, rd, sh) && !ForHost(m.r[2]) && m.r[2] != 4001 && m.r[2] != 4246
    requires m.r[2] != 4045 && m.r[2] != 4210 && m.r[2] != 4091 && m.r[2] != 4125 && m.r[2] != 4252 && m.r[2] != 4283
    ensures ExecWord(h, RWord(rs, rt, rd, sh, 0xC), m) == None
  {
    hide ExecWord, RWord, HostSyscall, Brk, Mmap2, SimpleSyscall;
    RSystem(h, rs, rt, rd, sh, m);
  }

  /** The codes the nested switch knows. */
  predicate Defined(w: Word) {
    var op, fn, rt := w / 0x400_0000, w % 0x40, w / 0x1_0000 % 0x20;
    if op == 0 then
      fn in {0, 2, 3, 4, 6, 7, 8, 9, 0xC, 0xD, 0xF, 0x10, 0x11, 0x12, 0x13, 0x18, 0x19, 0x1A, 0x1B,
             0x20, 0x21, 0x22, 0x23, 0x24, 0x25, 0x26, 0x27, 0x2A, 0x2B}
    else if op == 1 then
      rt in {0, 1, 0x10, 0x11}
    else
      2 <= op < 16 || op == 0x1F || 0x20 <= op < 0x27 || 0x28 <= op < 0x2C || op in {0x2E, 0x30, 0x38}
  }

  lemma DefinedExactly(w: Word)
    ensures Decode(w).Some? <==> Defined(w)
  {}
}
