/**
 Reading and parsing of small proc files by the benchmark runner.
 */
module ProcFile {
  import opened Machine
  import opened Wrappers

  // Reading

  /** What the system does with one read: deliver at most so many bytes, interrupt it, or fail. */
  datatype Event = Deliver(atMost: nat) | Interrupt | Fail

  datatype ReadResult = Bytes(n: nat) | Interrupted | Failed

  /** One read of `want` bytes at `pos`; when the schedule is used up, reads are complete. */
  function ReadAt(content: seq<byte>, pos: nat, want: nat, schedule: seq<Event>): ReadResult
    requires pos <= |content|
  {
    var available := if |content| - pos < want then |content| - pos else want;
    if schedule == [] then Bytes(available)
    else match schedule[0]
      case Interrupt => Interrupted
      case Fail => Failed
      case Deliver(m) => Bytes(if available <= m then available else if m == 0 then 1 else m)
  }

  function Tail(schedule: seq<Event>): seq<Event> {
    if schedule == [] then [] else schedule[1..]
  }

  /** The next `k` bytes of the file arrive in the buffer. */
  method Fill(file: seq<byte>, filled: nat, k: nat, buffer: array<byte>)
    requires filled + k <= buffer.Length && filled + k <= |file| && buffer[..filled] == file[..filled]
    modifies buffer
    ensures buffer[..filled + k] == file[..filled + k]
  {
    assert forall j | 0 <= j < filled :: buffer[j] == buffer[..filled][j] == file[j];
    forall i | filled <= i < filled + k {
      buffer[i] := file[i];
    }
    assert forall j | 0 <= j < filled + k :: buffer[j] == file[j];
  }

  /**
   `read_proc_file`: whatever the schedule of short, interrupted and failed reads, a nonzero
   result is the length of the whole file, which is then in the buffer.
   */
  method ReadProcFile(content: Option<seq<byte>>, schedule: seq<Event>, buffer: array<byte>) returns (n: nat)
    modifies buffer
    ensures n <= buffer.Length
    ensures n > 0 ==> content.Some? && n == |content.value| && buffer[..n] == content.value
    ensures content.Some? && |content.value| <= buffer.Length && Fail !in schedule ==> n == |content.value|
  {
    if content == None {
      return 0;
    }
    var file, events := content.value, schedule;
    var filled := 0;
    while filled < buffer.Length
      invariant filled <= buffer.Length && filled <= |file|
      invariant buffer[..filled] == file[..filled]
      invariant Fail !in schedule ==> Fail !in events
      decreases |events| + |file| - filled
    {
      var result := ReadAt(file, filled, buffer.Length - filled, events);
      events := Tail(events);
      match result {
        case Bytes(k) =>
          if k == 0 {
            break;
          }
          Fill(file, filled, k, buffer);
          filled := filled + k;
        case Interrupted =>
        case Failed =>
          return 0;
      }
    }
    if filled == buffer.Length {
      while true
        invariant filled <= |file|
        invariant Fail !in schedule ==> Fail !in events
        decreases |events|
      {
        var result := ReadAt(file, filled, 1, events);
        events := Tail(events);
        match result {
          case Bytes(k) =>
            if k == 0 {
              break;
            }
            return 0;
          case Interrupted =>
          case Failed =>
            return 0;
        }
      }
    }
    assert file[..|file|] == file;
    n := filled;
  }

  // Parsing

  predicate IsDigitByte(b: byte) {
    48 <= b <= 57
  }

  /** `parse_ascii_u64`: a fold that stops at the first byte that is no digit and at the first overflow. */
  function ParseAscii(bytes: seq<byte>): Option<u64> {
    if bytes == [] then None else Fold(bytes)
  }

  function Fold(bytes: seq<byte>): Option<u64> {
    if bytes == [] then Some(0) else
      var before, b := Fold(bytes[..|bytes| - 1]), bytes[|bytes| - 1];
      if before.None? || !IsDigitByte(b) then None
      else if before.value * 10 >= TWO64 then None
      else if before.value * 10 + (b - 48) >= TWO64 then None
      else Some(before.value * 10 + (b - 48))
  }

  predicate AllDigitBytes(bytes: seq<byte>) {
    forall i | 0 <= i < |bytes| :: IsDigitByte(bytes[i])
  }

  /** The number a digit string denotes. */
  function DigitsValue(bytes: seq<byte>): int {
    if bytes == [] then 0 else 10 * DigitsValue(bytes[..|bytes| - 1]) + (bytes[|bytes| - 1] as int - 48)
  }

  lemma {:induction false} FoldDecides(bytes: seq<byte>)
    ensures Fold(bytes).Some? <==> AllDigitBytes(bytes) && DigitsValue(bytes) < TWO64
    ensures Fold(bytes).Some? ==> Fold(bytes).value == DigitsValue(bytes)
    ensures AllDigitBytes(bytes) ==> DigitsValue(bytes) >= 0
  {
    if bytes == [] {
    } else {
      var k := |bytes| - 1;
      FoldDecides(bytes[..k]);
      assert AllDigitBytes(bytes) <==> AllDigitBytes(bytes[..k]) && IsDigitByte(bytes[k]);
    }
  }

  /** Parsing succeeds exactly on nonempty digit strings below 2^64, with their value. */
  lemma ParseAsciiDecides(bytes: seq<byte>, v: u64)
    ensures ParseAscii(bytes) == Some(v)
            <==> bytes != [] && (forall i | 0 <= i < |bytes| :: 48 <= bytes[i] <= 57) && DigitsValue(bytes) == v
  {
    FoldDecides(bytes);
  }
}
