/**
 * The in-kernel test harness: decimal conversion of unsigned values, the
 * command line read from the serial port, the name-to-test dispatch table
 * and the framing of messages sent back to the host.
 */
module TestMain {
  import opened Wrappers
  import Utils

  const CmdBufSize: nat := 128
  const TmpSize: nat := 16
  const NUL: char := '\0'
  const EndMarker: char := '*'

  /** The digit character for d. */
  function DigitChar(d: nat): (c: char)
    requires d < 10
    ensures '0' <= c <= '9'
  {
    ('0' as int + d) as char
  }

  /** The value of a digit character. */
  function DigitValue(c: char): (d: nat)
    requires '0' <= c <= '9'
    ensures d < 10 && DigitChar(d) == c
  {
    c as int - '0' as int
  }

  /** The decimal digits of v, most significant first; none for 0. */
  function Digits(v: nat): (s: string)
    ensures forall k :: 0 <= k < |s| ==> '0' <= s[k] <= '9'
    ensures v == 0 <==> |s| == 0
    ensures |s| > 0 ==> s[0] != '0'
  {
    if v == 0 then [] else Digits(v / 10) + [DigitChar(v % 10)]
  }

  /** The text utoa produces for v. */
  function DecimalText(v: nat): (s: string)
    ensures |s| >= 1
    ensures forall k :: 0 <= k < |s| ==> '0' <= s[k] <= '9'
    ensures |s| > 1 ==> s[0] != '0'
  {
    if v == 0 then "0" else Digits(v)
  }

  /** The value a string of decimal digits denotes. */
  function ParseDecimal(s: string): (v: nat)
    requires forall k :: 0 <= k < |s| ==> '0' <= s[k] <= '9'
  {
    if |s| == 0 then 0 else 10 * ParseDecimal(s[..|s| - 1]) + DigitValue(s[|s| - 1])
  }

  /** Reading the digits back gives the value. */
  lemma {:induction false} ParseDigits(v: nat)
    ensures ParseDecimal(Digits(v)) == v
  {
    if v != 0 {
      var s := Digits(v);
      assert s[..|s| - 1] == Digits(v / 10);
      ParseDigits(v / 10);
    }
  }

  /** utoa's output denotes the value it was given. */
  lemma DecimalTextRoundTrip(v: nat)
    ensures ParseDecimal(DecimalText(v)) == v
  {
    if v == 0 {
      assert DecimalText(v)[..0] == [];
    } else {
      ParseDigits(v);
    }
  }

  function Pow10(k: nat): (p: nat)
    ensures p >= 1
  {
    if k == 0 then 1 else 10 * Pow10(k - 1)
  }

  /** A value below 10^k has at most k digits. */
  lemma {:induction false} DigitsBound(v: nat, k: nat)
    requires v < Pow10(k)
    ensures |Digits(v)| <= k
  {
    if v != 0 {
      assert k > 0;
      DigitsBound(v / 10, k - 1);
    }
  }

  /** An unsigned 32-bit value has at most 10 digits, so the 16-character scratch buffer never fills. */
  lemma U32Digits(v: nat)
    requires v < 0x1_0000_0000
    ensures |Digits(v)| <= 10 < TmpSize
  {
    assert Pow10(10) == 10_000_000_000;
    DigitsBound(v, 10);
  }

  /** The sequence s in reverse order. */
  function Reversed(s: string): (r: string)
    ensures |r| == |s|
    ensures forall k :: 0 <= k < |s| ==> r[k] == s[|s| - 1 - k]
  {
    if |s| == 0 then [] else [s[|s| - 1]] + Reversed(s[..|s| - 1])
  }

  /**
   * The first loop of utoa: the digits of val, least significant first, in a
   * fresh 16-character scratch buffer.
   */
  method LowDigitsFirst(val: nat) returns (tmp: array<char>, n: nat)
    requires 0 < val < 0x1_0000_0000
    ensures fresh(tmp) && tmp.Length == TmpSize
    ensures n <= 10 && Reversed(tmp[..n]) == Digits(val)
  {
    U32Digits(val);
    tmp := new char[TmpSize];
    var v: nat := val;
    n := 0;
    while v > 0 && n < TmpSize
      invariant 0 <= n <= TmpSize
      invariant Digits(val) == Digits(v) + Reversed(tmp[..n])
      invariant n + |Digits(v)| <= 10
    {
      assert Digits(v) == Digits(v / 10) + [DigitChar(v % 10)];
      tmp[n] := DigitChar(v % 10);
      assert tmp[..n + 1][..n] == tmp[..n];
      assert Reversed(tmp[..n + 1]) == [tmp[n]] + Reversed(tmp[..n]);
      n := n + 1;
      v := v / 10;
    }
  }

  /**
   * utoa: writes the decimal text of val and a terminating NUL at the start
   * of buf; the rest of buf is unchanged.
   */
  method Utoa(val: Utils.u32, buf: array<char>)
    requires buf.Length >= 11
    modifies buf
    ensures |DecimalText(val)| <= 10
    ensures buf[..|DecimalText(val)|] == DecimalText(val)
    ensures buf[|DecimalText(val)|] == NUL
    ensures buf[|DecimalText(val)| + 1..] == old(buf[|DecimalText(val)| + 1..])
  {
    U32Digits(val);
    if val == 0 {
      buf[0] := '0';
      buf[1] := NUL;
      return;
    }
    var tmp, n := LowDigitsFirst(val);
    CopyReversed(tmp, n, buf);
    buf[n] := NUL;
  }

  /** The second loop of utoa: the first n characters of src, last first, at the start of dst. */
  method CopyReversed(src: array<char>, n: nat, dst: array<char>)
    requires n <= src.Length && n < dst.Length && src != dst
    modifies dst
    ensures dst[..n] == Reversed(src[..n])
    ensures dst[n..] == old(dst[n..])
  {
    ghost var text := Reversed(src[..n]);
    var i, j := n, 0;
    while i > 0
      invariant 0 <= i <= n && j == n - i
      invariant forall k :: 0 <= k < j ==> dst[k] == text[k]
      invariant dst[n..] == old(dst[n..])
    {
      i := i - 1;
      dst[j] := src[i];
      j := j + 1;
    }
    assert dst[..n] == text;
  }

  /** The characters that end a command. */
  predicate IsTerminator(c: char)
  {
    c == NUL || c == '\n' || c == '\r'
  }

  /** The position of the first terminator in the serial input. */
  function LineLength(input: string): (n: nat)
    requires exists k :: 0 <= k < |input| && IsTerminator(input[k])
    ensures n < |input| && IsTerminator(input[n])
    ensures forall k :: 0 <= k < n ==> !IsTerminator(input[k])
  {
    if IsTerminator(input[0]) then 0
    else
      assert exists k :: 0 <= k < |input[1..]| && IsTerminator(input[1..][k]) by {
        var k :| 0 <= k < |input| && IsTerminator(input[k]);
        assert k > 0 && input[1..][k - 1] == input[k];
      }
      1 + LineLength(input[1..])
  }

  /** The command read_command keeps: the line, cut to the buffer minus its NUL. */
  function CommandOf(input: string): (cmd: string)
    requires exists k :: 0 <= k < |input| && IsTerminator(input[k])
    ensures |cmd| <= CmdBufSize - 1
    ensures forall k :: 0 <= k < |cmd| ==> !IsTerminator(cmd[k])
    ensures cmd <= input
    ensures |cmd| == LineLength(input) || |cmd| == CmdBufSize - 1
  {
    var n := LineLength(input);
    if n < CmdBufSize - 1 then input[..n] else input[..CmdBufSize - 1]
  }

  /**
   * read_command: consumes characters from the serial input up to and
   * including the first terminator and leaves the command, NUL-padded, in
   * the command buffer; returns the command's length and how many input
   * characters were consumed.
   */
  method ReadCommand(cmdBuf: array<char>, input: string) returns (size: nat, consumed: nat)
    requires cmdBuf.Length == CmdBufSize
    requires exists k :: 0 <= k < |input| && IsTerminator(input[k])
    modifies cmdBuf
    ensures size == |CommandOf(input)|
    ensures consumed == LineLength(input) + 1
    ensures cmdBuf[..size] == CommandOf(input)
    ensures forall k :: size <= k < CmdBufSize ==> cmdBuf[k] == NUL
  {
    forall k | 0 <= k < CmdBufSize {
      cmdBuf[k] := NUL;
    }
    var start := 0;
    var pos := 0;
    ghost var n := LineLength(input);
    while !IsTerminator(input[pos])
      invariant 0 <= pos <= n
      invariant start == if pos < CmdBufSize - 1 then pos else CmdBufSize - 1
      invariant cmdBuf[..start] == input[..start]
      invariant forall k :: start <= k < CmdBufSize ==> cmdBuf[k] == NUL
      decreases n - pos
    {
      if start < CmdBufSize - 1 {
        cmdBuf[start] := input[pos];
        start := start + 1;
      }
      pos := pos + 1;
    }
    cmdBuf[start] := NUL;
    size, consumed := start, pos + 1;
  }

  /** A line shorter than the buffer is kept whole. */
  lemma ShortLineKept(line: string, term: char)
    requires |line| < CmdBufSize && IsTerminator(term)
    requires forall k :: 0 <= k < |line| ==> !IsTerminator(line[k])
    ensures IsTerminator((line + [term])[|line|]) && CommandOf(line + [term]) == line
  {
    var input := line + [term];
    assert IsTerminator(input[|line|]);
    assert forall k :: 0 <= k < |line| ==> input[k] == line[k];
    assert input[..|line|] == line;
  }

  const VgaTests: seq<string> := [
    "vga_entry", "vga_cursor", "vga_entry_overwrite", "vga_color", "vga_entry_boundaries",
    "vga_entry_hidden", "vga_cursor_hidden"
  ]

  const InterruptTests: seq<string> := [
    "intr_reg", "intr_unreg", "intr_unreg", "intr_multi"
  ]

  const KeyboardTests: seq<string> := [
    "kbd_basic", "kbd_multi", "kbd_capslock", "kbd_shift"
  ]

  const TtyTests: seq<string> := [
    "terminal_getc", "terminal_read", "terminal_cursor", "terminal_clear", "terminal_putc",
    "terminal_write", "terminal_column", "terminal_scroll", "terminal_colour", "terminal_text_color",
    "terminal_bg_color", "terminal_echo"
  ]

  const SyscallTests: seq<string> := [
    "syscall_register", "syscall_read", "syscall_write", "syscall_read_enforced", "syscall_write_enforced"
  ]

  const ShellTests: seq<string> := [
    "shell_echo", "shell_repeat", "shell_clear", "shell_colour", "shell_bgcolour"
  ]

  const KheapTests: seq<string> := [
    "kheap_init", "kheap_alloc_small", "kheap_alloc_exact", "kheap_split", "kheap_free_reuse",
    "kheap_coalesce", "kheap_double_free", "kheap_invalid_free", "kheap_realloc_shrink",
    "kheap_realloc_expand", "kheap_realloc_null", "kheap_realloc_zero", "kheap_oom",
    "kheap_stress_pattern", "kheap_fragmentation_coalescing", "kheap_alignment_check",
    "kheap_random_stress", "kheap_realloc_integrity", "kheap_buddy_multilevel", "kheap_buddy_symmetry"
  ]

  const KmmTests: seq<string> := [
    "kmm_init_total", "kmm_reserved", "kmm_alloc_all", "kmm_alloc_align", "kmm_reuse",
    "kmm_double_free", "kmm_free_invalid", "kmm_consistency", "kmm_pattern", "kmm_oom",
    "kmm_frame0", "kmm_fuzz_hidden"
  ]

  const VmmTests: seq<string> := [
    "vmm_init", "vmm_get_kerneldir", "vmm_get_currentdir", "vmm_create_space", "vmm_switch_dir",
    "vmm_create_pt", "vmm_map_basic", "vmm_page_alloc", "vmm_page_free", "vmm_alloc_region",
    "vmm_free_region", "vmm_get_phys", "vmm_double_map", "vmm_clone_pagetable", "vmm_clone_dir",
    "vmm_memory_reuse_cycle", "vmm_page_table_cleanup", "vmm_rapid_remapping", "vmm_partial_region_operations",
    "vmm_multiple_address_spaces_stress"
  ]

  const TimerTests: seq<string> := [
    "test_tick_count_incrementing", "test_sleep_duration", "test_multiple_sleeps",
    "test_timer_sleep_zero", "test_timer_reinit"
  ]

  const TssTests: seq<string> := [
    "test_tss_global_access", "test_tss_esp0_update", "test_tss_layout_and_init"
  ]

  const ElfTests: seq<string> := [
    "test_elf_check_valid_header", "test_elf_load_program", "test_elf_load_nonexistent",
    "test_elf_load_null_args", "test_elf_check_header_content", "test_elf_bss_zeroing"
  ]

  const ProcessTests: seq<string> := [
    "test_thread", "test_process_create_nonnull", "test_process_create_different_priorities",
    "test_process_name_handling", "test_get_main_thread_nonnull", "test_scheduler_get_current_thread",
    "test_scheduler_get_current_proc", "test_thread_creation", "test_multiple_thread_creation",
    "test_scheduler_post_thread", "test_multiple_process_creation", "test_thread_destroy_safe",
    "test_process_exit_safe", "test_concurrent_scheduler_ops", "test_many_threads_creation",
    "test_scheduler_ordering", "test_scheduler_ordering_two", "test_scheduler_ordering_three"
  ]

  const HfsTests: seq<string> := [
    "test_01_format_mount", "test_02_single_directory", "test_03_nested_directories",
    "test_04_single_file_create", "test_05_small_file_write_read", "test_06_multiple_files_same_dir",
    "test_07_write_multiple_files", "test_08_files_in_multiple_dirs", "test_09_complex_tree_structure",
    "test_10_medium_file_direct_pointers", "test_11_large_file_indirect_pointer", "test_12_very_large_file",
    "test_13_multiple_large_files", "test_14_file_overwrite", "test_15_write_at_offset",
    "test_16_partial_operations", "test_17_deep_path_lookup", "test_18_very_deep_nesting",
    "test_19_inode_allocation_stress", "test_20_block_allocation_stress", "test_21_mixed_operations_stress",
    "test_h01_sparse_file_random_offsets", "test_h02_interleaved_file_operations",
    "test_h03_maximum_file_size", "test_h04_directory_entry_stress", "test_h05_complex_overwrite_expansion",
    "test_h06_deep_tree_with_files", "test_h07_fragmented_writes", "test_h08_concurrent_large_file_growth",
    "test_h09_cross_boundary_edge_cases", "test_h10_comprehensive_stress_test"
  ]

  /** The names in the test table, in table order (which lists "intr_unreg" twice). */
  const TestNames: seq<string> :=
    VgaTests + (InterruptTests + (KeyboardTests + TtyTests + SyscallTests + ShellTests + KheapTests + KmmTests + VmmTests + TimerTests + TssTests + ElfTests + ProcessTests + HfsTests))

  /** What one round of start_tests does with a command. */
  datatype Action = Ignore | Run(index: nat) | Unknown

  /** The reply sent when no test has the command's name. */
  const UnknownReply: string := "Unknown command"

  /**
   * One round of start_tests: an empty command is ignored, otherwise the
   * first table entry whose name equals the command runs, and without one
   * "Unknown command" is reported.
   */
  method Dispatch(cmd: string, table: seq<string>) returns (action: Action)
    ensures action == Ignore <==> |cmd| == 0
    ensures action.Run? ==>
              && action.index < |table| && table[action.index] == cmd
              && forall k :: 0 <= k < action.index ==> table[k] != cmd
    ensures action == Unknown <==> |cmd| > 0 && cmd !in table
  {
    if |cmd| == 0 {
      return Ignore;
    }
    var i := 0;
    while i < |table|
      invariant 0 <= i <= |table|
      invariant forall k :: 0 <= k < i ==> table[k] != cmd
    {
      if table[i] == cmd {
        return Run(i);
      }
      i := i + 1;
    }
    return Unknown;
  }

  /** The first index of name in the table, when present. */
  function FirstIndex(table: seq<string>, name: string): (r: Option<nat>)
    ensures r.None? <==> name !in table
    ensures r.Some? ==>
              && r.value < |table| && table[r.value] == name
              && forall k :: 0 <= k < r.value ==> table[k] != name
  {
    if |table| == 0 then None
    else if table[0] == name then Some(0)
    else match FirstIndex(table[1..], name)
      case None => None
      case Some(i) => Some(i + 1)
  }

  /** An index holding the name, with no earlier one, is the first index. */
  lemma FirstIndexAt(table: seq<string>, name: string, i: nat)
    requires i < |table| && table[i] == name
    requires forall k :: 0 <= k < i ==> table[k] != name
    ensures FirstIndex(table, name) == Some(i)
  {
  }

  /** The duplicate "intr_unreg" entry is never reached: the earlier one always wins. */
  lemma DuplicateEntryShadowed()
    ensures TestNames[8] == TestNames[9] == "intr_unreg"
    ensures FirstIndex(TestNames, "intr_unreg") == Some(8)
  {
    assert forall k :: 0 <= k < 8 ==> TestNames[k] != "intr_unreg";
    FirstIndexAt(TestNames, "intr_unreg", 8);
  }

  /** send_msg: the message followed by the end marker. */
  function Framed(msg: string): (out: string)
    ensures |out| == |msg| + 1 && out[|msg|] == EndMarker
  {
    msg + [EndMarker]
  }

  /** The host side: the text before the first end marker, if any. */
  function Unframe(out: string): (r: Option<string>)
    ensures r.Some? ==>
              && r.value <= out && |r.value| < |out| && out[|r.value|] == EndMarker
              && EndMarker !in r.value
    ensures r.None? <==> EndMarker !in out
  {
    if |out| == 0 then None
    else if out[0] == EndMarker then Some([])
    else match Unframe(out[1..])
      case None => None
      case Some(m) => Some([out[0]] + m)
  }

  /** A message without the end marker is recovered from its frame. */
  lemma {:induction false} UnframeFramed(msg: string)
    requires EndMarker !in msg
    ensures Unframe(Framed(msg)) == Some(msg)
  {
    if |msg| > 0 {
      assert msg == [msg[0]] + msg[1..];
      assert Framed(msg)[1..] == Framed(msg[1..]);
      UnframeFramed(msg[1..]);
    }
  }
}
