/** The up-front address check of `edit_text`: every address a command carries
    (both ends of its range, and the destination of a move or copy, also inside
    a global) is checked once against the pristine input before anything is
    changed. */
module Verify {
  import opened Wrappers
  import opened Lnhash
  import opened Numerals
  import opened Parse

  const ErrZeroOnlyIAHere := Error(26)
  const ErrAddressZeroHere := Error(27)
  const ErrAddressOutOfRange := Error(28)
  const ErrStale := Error(29)

  /** The address names a line of the input and still carries that line's hash. */
  predicate Current(hasher: LineHasher, input: seq<string>, addr: LnHash) {
    1 <= addr.lineno <= |input| && hasher(input[addr.lineno - 1]) == addr.hash
  }

  /** `verify_lnhash_basic`: zero, out of range and stale addresses are refused,
      in that order. */
  function VerifyLnHashBasic(hasher: LineHasher, input: seq<string>, addr: LnHash): (r: Result<()>)
    ensures r.Ok? <==> Current(hasher, input, addr)
    ensures addr.lineno == 0 ==> r == Err(ErrAddressZeroHere)
    ensures 0 < addr.lineno && |input| < addr.lineno ==> r == Err(ErrAddressOutOfRange)
    ensures 0 < addr.lineno <= |input| && !Current(hasher, input, addr) ==> r == Err(ErrStale)
  {
    if addr.lineno == 0 then Err(ErrAddressZeroHere)
    else if addr.lineno > |input| then Err(ErrAddressOutOfRange)
    else if hasher(input[addr.lineno - 1]) != addr.hash then Err(ErrStale)
    else Ok(())
  }

  /** The zero sentinel `0|0000|`, accepted only in front of `a` or `i`. */
  predicate ZeroSentinelFor(addr: LnHash, cmd: Subcommand) {
    addr.lineno == 0 && addr.hash == 0 && (cmd.Append? || cmd.Insert?)
  }

  /** `verify_lnhash`: the zero sentinel for `a`/`i`, or a current address. */
  function VerifyLnHash(hasher: LineHasher, input: seq<string>, addr: LnHash, cmd: Subcommand): (r: Result<()>)
    ensures r.Ok? <==> ZeroSentinelFor(addr, cmd) || Current(hasher, input, addr)
    ensures addr.lineno == 0 && addr.hash != 0 ==> r == Err(ErrZeroHash)
    ensures addr.lineno == 0 && addr.hash == 0 && !(cmd.Append? || cmd.Insert?) ==> r == Err(ErrZeroOnlyIAHere)
  {
    if addr.lineno == 0 then
      if addr.hash != 0 then Err(ErrZeroHash)
      else if cmd.Append? || cmd.Insert? then Ok(())
      else Err(ErrZeroOnlyIAHere)
    else VerifyLnHashBasic(hasher, input, addr)
  }

  /** The destination a subcommand refers to, looking through globals. */
  function Destination(cmd: Subcommand): Option<LnHash> {
    match cmd
    case Move(dest) => Some(dest)
    case Copy(dest) => Some(dest)
    case Global(_, _, inner) => Destination(inner)
    case _ => None
  }

  /** `verify_subcommand_refs`: a destination, however deeply wrapped in globals,
      must be a current address. */
  function VerifySubcommandRefs(hasher: LineHasher, input: seq<string>, cmd: Subcommand): (r: Result<()>)
    ensures r.Ok? <==> Destination(cmd).None? || Current(hasher, input, Destination(cmd).value)
    ensures Destination(cmd).Some? ==> r == VerifyLnHashBasic(hasher, input, Destination(cmd).value)
  {
    match cmd
    case Move(dest) => VerifyLnHashBasic(hasher, input, dest)
    case Copy(dest) => VerifyLnHashBasic(hasher, input, dest)
    case Global(_, _, inner) => VerifySubcommandRefs(hasher, input, inner)
    case _ => Ok(())
  }

  /** Every address of one command checks out against the input. */
  predicate CommandCurrent(hasher: LineHasher, input: seq<string>, c: Command) {
    && (ZeroSentinelFor(c.addr1, c.cmd) || Current(hasher, input, c.addr1))
    && (c.addr2.Some? ==> ZeroSentinelFor(c.addr2.value, c.cmd) || Current(hasher, input, c.addr2.value))
    && (Destination(c.cmd).Some? ==> Current(hasher, input, Destination(c.cmd).value))
  }

  /** The body of `verify_all`'s loop for one command: first address, second
      address, then the destination. */
  function VerifyCommand(hasher: LineHasher, input: seq<string>, c: Command): (r: Result<()>)
    ensures r.Ok? <==> CommandCurrent(hasher, input, c)
  {
    var _ :- VerifyLnHash(hasher, input, c.addr1, c.cmd);
    var _ :- if c.addr2.Some? then VerifyLnHash(hasher, input, c.addr2.value, c.cmd) else Ok(());
    VerifySubcommandRefs(hasher, input, c.cmd)
  }

  /** `verify_all`: the commands in order; the first failure is reported. */
  method VerifyAll(hasher: LineHasher, input: seq<string>, commands: seq<Command>) returns (r: Result<()>)
    ensures r == VerifyEach(hasher, input, commands)
  {
    for i := 0 to |commands|
      invariant VerifyEach(hasher, input, commands) == VerifyEach(hasher, input, commands[i..])
    {
      assert commands[i..][1..] == commands[i + 1..];
      var v := VerifyCommand(hasher, input, commands[i]);
      if v.Err? {
        return Err(v.msg);
      }
    }
    return Ok(());
  }

  /** What `verify_all` computes, command by command from the front. */
  function VerifyEach(hasher: LineHasher, input: seq<string>, commands: seq<Command>): Result<()>
    decreases |commands|
  {
    if commands == [] then Ok(())
    else
      var _ :- VerifyCommand(hasher, input, commands[0]);
      VerifyEach(hasher, input, commands[1..])
  }

  /** `verify_all` accepts exactly the scripts whose every command is current, and
      otherwise reports the error of the first command that is not. */
  lemma {:induction false} VerifyEachSpec(hasher: LineHasher, input: seq<string>, commands: seq<Command>)
    ensures VerifyEach(hasher, input, commands).Ok? <==>
      forall k :: 0 <= k < |commands| ==> CommandCurrent(hasher, input, commands[k])
    ensures VerifyEach(hasher, input, commands).Err? ==>
      exists k :: 0 <= k < |commands| && VerifyEach(hasher, input, commands) == VerifyCommand(hasher, input, commands[k])
        && forall j :: 0 <= j < k ==> CommandCurrent(hasher, input, commands[j])
    decreases |commands|
  {
    if commands != [] {
      VerifyEachSpec(hasher, input, commands[1..]);
      var r := VerifyEach(hasher, input, commands);
      if VerifyCommand(hasher, input, commands[0]).Ok? {
        assert forall k :: 0 < k < |commands| ==> commands[k] == commands[1..][k - 1];
        if r.Err? {
          var k :| 0 <= k < |commands[1..]| && r == VerifyCommand(hasher, input, commands[1..][k])
            && forall j :: 0 <= j < k ==> CommandCurrent(hasher, input, commands[1..][j]);
          assert r == VerifyCommand(hasher, input, commands[k + 1]);
        }
      } else {
        assert r == VerifyCommand(hasher, input, commands[0]);
      }
    }
  }

  /** An address printed for a line of the input passes the check against that
      same input: printing and verifying agree. */
  lemma PrintedAddressVerifies(hasher: LineHasher, input: seq<string>, i: nat)
    requires i < |input| && i + 1 <= USIZE_MAX
    ensures ParseLnHash(FormatLnHash(hasher, i + 1, input[i])).Ok?
    ensures VerifyLnHashBasic(hasher, input, ParseLnHash(FormatLnHash(hasher, i + 1, input[i])).value) == Ok(())
  {
    LnHashRoundTrip(hasher, i + 1, input[i]);
  }
}
