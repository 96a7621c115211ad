// Reliable direct messaging in the secure-chat node: one outstanding message
// at a time, resent on timeout up to three more times (falling back to flood
// routing from the second retry), and cleared by the matching 4-byte ack.
// BaseChatMesh::sendMessage is outside the model: it is a function parameter
// that, given the recipient (whose out_path_len selects flood or direct
// routing), the timestamp, the attempt number and the text, reports failure
// or the ack token to expect.

module ChatSend {
  import opened Bytes

  const MAX_SEND_ATTEMPTS: nat := 3
  const RETRY_FALLBACK_ATTEMPT: nat := 2
  const FLOOD_PATH_LEN: int := -1

  /** The recipient as far as sending is concerned: ContactInfo's name and out_path_len. */
  datatype Contact = Contact(name: seq<byte>, outPathLen: int8, lastAdvertTimestamp: uint32)

  /** MSG_SEND_FAILED, MSG_SEND_SENT_FLOOD or MSG_SEND_SENT_DIRECT, with the
    * expected_ack value sendMessage writes when it sends. */
  datatype SendResult = SendFailed | SentFlood(ack: uint32) | SentDirect(ack: uint32)

  type SendFn = (Contact, uint32, uint8, seq<byte>) -> SendResult

  /** One call of sendMessage. */
  datatype Transmission = Transmission(to: Contact, timestamp: uint32, attempt: uint8, text: seq<byte>)

  /** The retry state: pending_message (empty once cleared), send_attempt,
    * pending_timestamp, expected_ack_crc and curr_recipient. */
  datatype Outbox = Outbox(pending: seq<byte>, attempt: uint8, timestamp: uint32,
                           expectedAck: uint32, recipient: Option<Contact>)

  /** trySendPendingMessage: at most one transmission; a failed send drops
    * the message, a successful one arms the ack token. */
  function TrySend(o: Outbox, send: SendFn): (r: (Outbox, seq<Transmission>))
    ensures |r.1| <= 1
    ensures |r.1| == 1 <==> o.recipient.Some? && o.pending != []
    ensures |r.1| == 1 ==> r.1[0] == Transmission(o.recipient.value, o.timestamp, o.attempt, o.pending)
    ensures r.0.attempt == o.attempt && r.0.recipient == o.recipient && r.0.timestamp == o.timestamp
    ensures |r.1| == 1 ==> match send(o.recipient.value, o.timestamp, o.attempt, o.pending)
                             case SendFailed => r.0 == o.(pending := [])
                             case SentFlood(ack) => r.0 == o.(expectedAck := ack)
                             case SentDirect(ack) => r.0 == o.(expectedAck := ack)
    ensures |r.1| == 0 ==> r.0 == o
  {
    if o.recipient.None? || o.pending == [] then (o, [])
    else
      var tx := Transmission(o.recipient.value, o.timestamp, o.attempt, o.pending);
      match send(o.recipient.value, o.timestamp, o.attempt, o.pending)
      case SendFailed => (o.(pending := []), [tx])
      case SentFlood(ack) => (o.(expectedAck := ack), [tx])
      case SentDirect(ack) => (o.(expectedAck := ack), [tx])
  }

  /** onSendTimeout. */
  function Timeout(o: Outbox, send: SendFn): (r: (Outbox, seq<Transmission>))
    ensures o.expectedAck == 0 ==> r == (o, [])
    ensures o.expectedAck != 0 && !(o.attempt < MAX_SEND_ATTEMPTS && o.pending != []) ==>
              r == (o.(pending := [], expectedAck := 0), [])
    ensures |r.1| == 1 ==> r.1[0].attempt == o.attempt + 1 && r.1[0].text == o.pending
    ensures o.expectedAck != 0 && o.attempt < MAX_SEND_ATTEMPTS && o.pending != [] && o.recipient.Some? ==>
              |r.1| == 1 && r.0.attempt == o.attempt + 1 && r.0.recipient.Some? && r.1[0].to == r.0.recipient.value
  {
    if o.expectedAck == 0 then (o, [])
    else if o.attempt < MAX_SEND_ATTEMPTS && o.pending != [] then TrySend(Retry(o), send)
    else (o.(pending := [], expectedAck := 0), [])
  }

  /** The state a retry is sent from: the attempt counted and, from the
    * second retry on, a recipient with a known path switched to flood. */
  function Retry(o: Outbox): (r: Outbox)
    requires o.attempt < MAX_SEND_ATTEMPTS
    ensures r.attempt == o.attempt + 1 && r.pending == o.pending
  {
    var retry := o.(attempt := o.attempt + 1);
    if retry.attempt >= RETRY_FALLBACK_ATTEMPT && retry.recipient.Some? && retry.recipient.value.outPathLen >= 0
    then retry.(recipient := Some(retry.recipient.value.(outPathLen := FLOOD_PATH_LEN)))
    else retry
  }

  /** processAck: the 4 bytes are compared with the in-memory (little-endian)
    * bytes of expected_ack_crc. */
  function ProcessAck(o: Outbox, data: seq<byte>): (o': Outbox)
    requires |data| == 4
    ensures data == LE32(o.expectedAck) ==> o' == o.(expectedAck := 0, pending := [])
    ensures data != LE32(o.expectedAck) ==> o' == o
  {
    if data == LE32(o.expectedAck) then o.(expectedAck := 0, pending := []) else o
  }

  /** The number of retries still possible. */
  function Budget(o: Outbox): nat
  {
    if o.pending != [] && o.expectedAck != 0 && o.attempt <= MAX_SEND_ATTEMPTS
    then MAX_SEND_ATTEMPTS - o.attempt else 0
  }

  /** Each timeout sends at most once, and only by spending a retry. */
  lemma TimeoutSpendsBudget(o: Outbox, send: SendFn)
    requires o.attempt <= MAX_SEND_ATTEMPTS
    ensures var r := Timeout(o, send);
            r.0.attempt <= MAX_SEND_ATTEMPTS && Budget(r.0) + |r.1| <= Budget(o)
  {
  }

  /** n consecutive timeouts. */
  function Timeouts(o: Outbox, n: nat, send: SendFn): (r: (Outbox, seq<Transmission>))
    decreases n
  {
    if n == 0 then (o, [])
    else
      var first := Timeout(o, send);
      var rest := Timeouts(first.0, n - 1, send);
      (rest.0, first.1 + rest.1)
  }

  lemma {:induction false} TimeoutsWithinBudget(o: Outbox, n: nat, send: SendFn)
    requires o.attempt <= MAX_SEND_ATTEMPTS
    ensures |Timeouts(o, n, send).1| <= Budget(o)
    decreases n
  {
    if n > 0 {
      TimeoutSpendsBudget(o, send);
      TimeoutsWithinBudget(Timeout(o, send).0, n - 1, send);
    }
  }

  /** cmdSend's direct path once the text is accepted: the message becomes
    * pending as attempt 0 and is sent once. */
  function StartSend(o: Outbox, text: seq<byte>, now: uint32, send: SendFn): (r: (Outbox, seq<Transmission>))
    ensures r.0.attempt == 0
  {
    TrySend(o.(pending := text, timestamp := now, attempt := 0), send)
  }

  /** However many timeouts follow, one message is transmitted at most four
    * times: the first send and three retries. */
  lemma AtMostFourTransmissions(o: Outbox, text: seq<byte>, now: uint32, send: SendFn, n: nat)
    ensures var started := StartSend(o, text, now, send);
            |started.1| + |Timeouts(started.0, n, send).1| <= 1 + MAX_SEND_ATTEMPTS
  {
    var started := StartSend(o, text, now, send);
    TimeoutsWithinBudget(started.0, n, send);
  }

  /** From the second retry on, a recipient with a known path is switched to
    * flood routing before the message is resent. */
  lemma RetryFallsBackToFlood(o: Outbox, send: SendFn)
    requires o.expectedAck != 0 && o.pending != [] && o.recipient.Some?
    requires RETRY_FALLBACK_ATTEMPT <= o.attempt + 1 <= MAX_SEND_ATTEMPTS
    ensures var r := Timeout(o, send);
            |r.1| == 1 && r.1[0].to.outPathLen < 0 && r.0.recipient.value.outPathLen < 0
  {
  }

  /** After the matching ack nothing is retried, and a repeated ack changes
    * nothing further. */
  lemma AckStopsRetries(o: Outbox, data: seq<byte>, send: SendFn)
    requires |data| == 4 && data == LE32(o.expectedAck)
    ensures var acked := ProcessAck(o, data);
            acked.pending == [] && acked.expectedAck == 0
            && Timeout(acked, send) == (acked, [])
            && ProcessAck(acked, data) == acked
  {
  }
}
