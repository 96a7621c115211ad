// The small text routines of the secure-chat node: _atoi, the message
// length check, the trimming of imported contact cards, and the serial line
// editor that fills the command buffer.

module ChatText {
  import opened Bytes

  // ----- _atoi -----

  predicate IsDigit(c: char)
  {
    '0' <= c <= '9'
  }

  predicate AllDigits(s: string)
  {
    forall i :: 0 <= i < |s| ==> IsDigit(s[i])
  }

  /** The decimal value of a string of digits, unbounded. */
  function DecimalValue(s: string): nat
    requires AllDigits(s)
  {
    if s == [] then 0 else 10 * DecimalValue(s[..|s| - 1]) + (s[|s| - 1] as int - '0' as int)
  }

  /** The length of the run of digits s starts with. */
  function LeadingDigits(s: string): (n: nat)
    ensures n <= |s| && AllDigits(s[..n])
    ensures forall i :: 0 <= i < n ==> IsDigit(s[i])
    ensures n < |s| ==> !IsDigit(s[n])
  {
    if s == [] || !IsDigit(s[0]) then 0
    else
      var n := 1 + LeadingDigits(s[1..]);
      assert forall i :: 1 <= i < n ==> s[..n][i] == s[1..][..n - 1][i - 1];
      n
  }

  /** The uint32 _atoi computes: the leading digits' value modulo 2^32. */
  function AtoiValue(s: string): (v: uint32)
  {
    DecimalValue(s[..LeadingDigits(s)]) % UINT32_MODULUS
  }

  /** _atoi: n = n * 10 + digit in uint32 arithmetic until the first non-digit. */
  method Atoi(s: string) returns (n: uint32)
    ensures n == AtoiValue(s)
  {
    n := 0;
    var i := 0;
    while i < |s| && IsDigit(s[i])
      invariant 0 <= i <= LeadingDigits(s)
      invariant AllDigits(s[..i]) && n == DecimalValue(s[..i]) % UINT32_MODULUS
    {
      var d := s[i] as int - '0' as int;
      assert s[..i + 1][..i] == s[..i];
      WrapStep(DecimalValue(s[..i]), d);
      n := (n * 10) % UINT32_MODULUS;
      n := (n + d) % UINT32_MODULUS;
      i := i + 1;
    }
  }

  /** One digit step commutes with reduction modulo 2^32. */
  lemma WrapStep(v: nat, d: nat)
    ensures ((v % UINT32_MODULUS * 10) % UINT32_MODULUS + d) % UINT32_MODULUS
         == (10 * v + d) % UINT32_MODULUS
  {
    var q := v / UINT32_MODULUS;
    var r := v % UINT32_MODULUS;
    assert 10 * v + d == (10 * r + d) + (10 * q) * UINT32_MODULUS;
    ModAddMultiple(10 * r + d, 10 * q);
    var q2 := (r * 10) / UINT32_MODULUS;
    assert (r * 10) % UINT32_MODULUS + d + q2 * UINT32_MODULUS == 10 * r + d;
    ModAddMultiple((r * 10) % UINT32_MODULUS + d, q2);
  }

  lemma {:induction false} ModAddMultiple(a: nat, k: nat)
    ensures (a + k * UINT32_MODULUS) % UINT32_MODULUS == a % UINT32_MODULUS
  {
    if k > 0 {
      assert a + k * UINT32_MODULUS == (a + (k - 1) * UINT32_MODULUS) + UINT32_MODULUS;
      ModAddMultiple(a, k - 1);
    }
  }

  /** For a number below 2^32, _atoi returns its exact value. */
  lemma AtoiExact(s: string)
    requires DecimalValue(s[..LeadingDigits(s)]) < UINT32_MODULUS
    ensures AtoiValue(s) == DecimalValue(s[..LeadingDigits(s)])
  {
  }

  // ----- validateTextLength -----

  /** validateTextLength: whether the text may be sent, and the new
    * last_send_too_long flag (set only when the text is too long). */
  function ValidateTextLength(text: seq<byte>, maxLen: nat): (r: (bool, bool))
    ensures r.0 <==> 0 < |text| <= maxLen
    ensures r.1 <==> |text| > maxLen
  {
    if |text| == 0 then (false, false)
    else if |text| > maxLen then (false, true)
    else (true, false)
  }

  // ----- importCard -----

  const CARD_PREFIX: string := "meshcore://"
  const CARD_BUFFER_SIZE: nat := 256

  predicate IsHexChar(c: char)
  {
    ('0' <= c <= '9') || ('a' <= c <= 'f') || ('A' <= c <= 'F')
  }

  /** The command with its leading spaces skipped. */
  function SkipSpaces(s: string): (r: string)
    ensures |r| <= |s| && r == s[|s| - |r|..]
    ensures r == [] || r[0] != ' '
    ensures forall i :: 0 <= i < |s| - |r| ==> s[i] == ' '
  {
    if s != [] && s[0] == ' ' then SkipSpaces(s[1..]) else s
  }

  /** The card after trailing junk is cut off: everything up to and
    * including the last hex digit. */
  function TrimToHex(s: string): (r: string)
    ensures |r| <= |s| && r == s[..|r|]
    ensures r == [] || IsHexChar(r[|r| - 1])
    ensures forall i :: |r| <= i < |s| ==> !IsHexChar(s[i])
  {
    if s == [] || IsHexChar(s[|s| - 1]) then s else TrimToHex(s[..|s| - 1])
  }

  /** The command, leading spaces skipped, starts with "meshcore://". */
  predicate HasCardPrefix(command: string)
  {
    var t := SkipSpaces(command);
    |t| >= |CARD_PREFIX| && t[..|CARD_PREFIX|] == CARD_PREFIX
  }

  /** What importCard does with a command line. */
  datatype CardOutcome = Imported | ImportRejected | CardTooLarge | InvalidFormat

  /** The hex digits of a well-formed card, or the outcome that stops first. */
  function CardHex(command: string): (r: Result<string>)
    ensures r.Success? ==> |r.value| > 0 && |r.value| % 2 == 0 && |r.value| / 2 <= CARD_BUFFER_SIZE
    ensures r.Success? ==> IsHexChar(r.value[|r.value| - 1])
    ensures !HasCardPrefix(command) ==> r == Failure("invalid format")
    ensures HasCardPrefix(command) ==>
              var hex := TrimToHex(SkipSpaces(command)[|CARD_PREFIX|..]);
              && (r.Success? <==> 0 < |hex| && |hex| % 2 == 0 && |hex| / 2 <= CARD_BUFFER_SIZE)
              && (r.Success? ==> r.value == hex)
              && (r.Failure? ==> r.error == (if |hex| % 2 == 0 && |hex| / 2 > CARD_BUFFER_SIZE
                                             then "too large" else "invalid format"))
  {
    var t := SkipSpaces(command);
    if |t| < |CARD_PREFIX| || t[..|CARD_PREFIX|] != CARD_PREFIX then Failure("invalid format")
    else
      var hex := TrimToHex(t[|CARD_PREFIX|..]);
      if |hex| % 2 == 0 && |hex| > 0 then
        if |hex| / 2 <= CARD_BUFFER_SIZE then Success(hex) else Failure("too large")
      else Failure("invalid format")
  }

  /** importCard, with the hex decoder and the contact import of the mesh
    * library as parameters. */
  function ImportCard(command: string, fromHex: string -> Option<seq<byte>>,
                      importContact: seq<byte> -> bool): (r: CardOutcome)
    ensures r == CardTooLarge <==>
              HasCardPrefix(command) &&
              var hex := TrimToHex(SkipSpaces(command)[|CARD_PREFIX|..]);
              |hex| % 2 == 0 && |hex| / 2 > CARD_BUFFER_SIZE
    ensures !HasCardPrefix(command) ==> r == InvalidFormat
    ensures var c := CardHex(command);
            && (r == Imported <==>
                  c.Success? && fromHex(c.value).Some? && importContact(fromHex(c.value).value))
            && (r == ImportRejected <==>
                  c.Success? && fromHex(c.value).Some? && !importContact(fromHex(c.value).value))
    ensures r == Imported ==> CardHex(command).Success? && fromHex(CardHex(command).value).Some?
  {
    match CardHex(command)
    case Failure(e) => if e == "too large" then CardTooLarge else InvalidFormat
    case Success(hex) =>
      match fromHex(hex)
      case None => InvalidFormat
      case Some(card) => if importContact(card) then Imported else ImportRejected
  }

  /** The two loops of importCard that find the card's hex digits. */
  method TrimCard(command: string) returns (body: string)
    ensures body == SkipSpaces(command)
  {
    var i := 0;
    while i < |command| && command[i] == ' '
      invariant 0 <= i <= |command|
      invariant SkipSpaces(command) == SkipSpaces(command[i..])
    {
      assert command[i..][1..] == command[i + 1..];
      i := i + 1;
    }
    body := command[i..];
  }

  method TrimTail(s: string) returns (hex: string)
    ensures hex == TrimToHex(s)
  {
    var end := |s|;
    while end > 0
      invariant 0 <= end <= |s|
      invariant TrimToHex(s) == TrimToHex(s[..end])
    {
      if IsHexChar(s[end - 1]) {
        break;
      }
      assert s[..end][..end - 1] == s[..end - 1];
      end := end - 1;
    }
    hex := s[..end];
  }

  // ----- the command-line editor in loop() -----

  const COMMAND_BUFFER_SIZE: nat := 512 + 10
  const MAX_COMMAND_LEN: nat := COMMAND_BUFFER_SIZE - 2
  const BACKSPACE: char := 8 as char
  const DEL: char := 127 as char

  predicate Printable(c: char)
  {
    32 <= c as int < 127
  }

  ghost predicate ValidLine(command: string)
  {
    |command| <= MAX_COMMAND_LEN && forall i :: 0 <= i < |command| ==> Printable(command[i])
  }

  /** The buffer after a character other than CR or LF: backspace and DEL
    * remove the last character, a printable character is appended, and any
    * other character is ignored. */
  function Keystroke(command: string, c: char): (next: string)
  {
    if c == BACKSPACE || c == DEL then (if |command| > 0 then command[..|command| - 1] else command)
    else if Printable(c) then command + [c]
    else command
  }

  /** The result of one loop() pass over the characters available: the new
    * buffer, how many characters were read, and the line handed to
    * handleCommand, if any. */
  datatype Edit = Edit(command: string, consumed: nat, submitted: Option<string>)

  function EnterConsumed(input: seq<char>): (n: nat)
    requires input != []
    ensures 1 <= n <= |input|
  {
    if input[0] == '\r' && |input| > 1 && input[1] == '\n' then 2 else 1
  }

  /** loop()'s reading, as written: characters are read only while the
    * buffer holds fewer than 520. keepLine says whether handleCommand left
    * last_send_too_long set (the buffer is then kept for editing). */
  function EditLine(command: string, input: seq<char>, keepLine: string -> bool): (e: Edit)
    ensures e.consumed <= |input|
    decreases |input|
  {
    if input == [] || |command| >= MAX_COMMAND_LEN then Edit(command, 0, None)
    else
      var c := input[0];
      if c == '\r' || c == '\n' then
        var n := EnterConsumed(input);
        if |command| > 0 then Edit(if keepLine(command) then command else [], n, Some(command))
        else Edit(command, n, None)
      else
        var next := Keystroke(command, c);
        var rest := EditLine(next, input[1..], keepLine);
        Edit(rest.command, rest.consumed + 1, rest.submitted)
  }

  /** The editor keeps the buffer a line of at most 520 printable characters. */
  lemma {:induction false} EditLineKeepsValid(command: string, input: seq<char>, keepLine: string -> bool)
    requires ValidLine(command)
    ensures ValidLine(EditLine(command, input, keepLine).command)
    ensures EditLine(command, input, keepLine).submitted.Some? ==>
              ValidLine(EditLine(command, input, keepLine).submitted.value)
    decreases |input|
  {
    if input != [] && |command| < MAX_COMMAND_LEN {
      var c := input[0];
      if !(c == '\r' || c == '\n') {
        var next := Keystroke(command, c);
        assert ValidLine(next);
        EditLineKeepsValid(next, input[1..], keepLine);
      }
    }
  }

  /** Once 520 characters are in the buffer nothing more is read: neither
    * Enter nor backspace reaches the editor, so the line can never be sent
    * or shortened. */
  lemma FullBufferIgnoresEnter(command: string, keepLine: string -> bool)
    requires |command| == MAX_COMMAND_LEN
    ensures EditLine(command, ['\r'], keepLine) == Edit(command, 0, None)
    ensures EditLine(command, [BACKSPACE], keepLine) == Edit(command, 0, None)
  {
  }

  /** The editor as evidently intended: a full buffer still takes Enter and
    * backspace, and only further printable characters are dropped. */
  function EditLineFixed(command: string, input: seq<char>, keepLine: string -> bool): (e: Edit)
    ensures e.consumed <= |input|
    decreases |input|
  {
    if input == [] then Edit(command, 0, None)
    else
      var c := input[0];
      if c == '\r' || c == '\n' then
        var n := EnterConsumed(input);
        if |command| > 0 then Edit(if keepLine(command) then command else [], n, Some(command))
        else Edit(command, n, None)
      else
        var next :=
          if c == BACKSPACE || c == DEL then (if |command| > 0 then command[..|command| - 1] else command)
          else if Printable(c) && |command| < MAX_COMMAND_LEN then command + [c]
          else command;
        var rest := EditLineFixed(next, input[1..], keepLine);
        Edit(rest.command, rest.consumed + 1, rest.submitted)
  }

  /** With the fix, typed text followed by Enter is always submitted, however
    * long the buffer already is, and the buffer stays a valid line. */
  lemma {:induction false} FixedEditorSubmits(command: string, typed: seq<char>, keepLine: string -> bool)
    requires ValidLine(command) && command != []
    requires forall i :: 0 <= i < |typed| ==> Printable(typed[i])
    ensures var e := EditLineFixed(command, typed + ['\n'], keepLine);
            e.submitted.Some? && ValidLine(e.submitted.value) && e.consumed == |typed| + 1
            && |e.submitted.value| >= |command| && e.submitted.value[..|command|] == command
    decreases |typed|
  {
    if typed == [] {
      assert typed + ['\n'] == ['\n'];
    } else {
      var c := typed[0];
      assert (typed + ['\n'])[0] == c && (typed + ['\n'])[1..] == typed[1..] + ['\n'];
      var next := if |command| < MAX_COMMAND_LEN then command + [c] else command;
      assert ValidLine(next) && next[..|command|] == command;
      FixedEditorSubmits(next, typed[1..], keepLine);
    }
  }
}
