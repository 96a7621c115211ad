// MyMesh, the secure-chat node: the state it keeps between events (the
// de-duplication ring, the clock-sample window, the message history, the
// retry state of the one outstanding message, the command line being typed)
// and the handlers that update it. Each handler is proved against the pure
// definitions of the Chat* modules.
//
// The real-time clock, SHA-256, sendMessage and handleCommand are outside
// the model: the clock reading is a parameter `now` (handlers that may set
// the clock return its new reading), the hash and the send are
// function-typed parameters, and handleCommand is represented by the log of
// the lines handed to it.

module SecureChat {
  import opened Bytes
  import opened ChatDedup
  import opened ChatClock
  import opened ChatHistory
  import opened ChatSend
  import opened ChatContacts
  import opened ChatText

  /** The recipient name that cmdSend treats as the public channel. */
  const PUBLIC_NAME: seq<byte> := [0x50, 0x75, 0x62, 0x6C, 0x69, 0x63]          // "Public"
  /** The direct-message text that asks the node to take the sender's time. */
  const CLOCK_SYNC_TEXT: seq<byte> := [0x63, 0x6C, 0x6F, 0x63, 0x6B, 0x20, 0x73, 0x79, 0x6E, 0x63] // "clock sync"
  /** The longest text cmdSend accepts for a direct message. */
  const SAFE_TEXT_LEN: nat := MAX_TEXT_LEN - 5

  /** sha256 truncated to its first four bytes, read as a uint32. */
  type HashFn = seq<byte> -> uint32

  /** The history entry trySendPendingMessage adds: only a first attempt
    * that sendMessage accepted is recorded, as flood or direct. */
  function SentEntry(o: Outbox, send: SendFn, from: seq<byte>): (es: seq<HistoryEntry>)
    ensures |es| <= 1
    ensures |es| == 1 ==> es[0] == MakeEntry(from, o.pending, o.timestamp, es[0].routingType)
  {
    if o.attempt == 0 && o.recipient.Some? && o.pending != [] then
      match send(o.recipient.value, o.timestamp, o.attempt, o.pending)
      case SendFailed => []
      case SentFlood(_) => [MakeEntry(from, o.pending, o.timestamp, ROUTING_FLOOD)]
      case SentDirect(_) => [MakeEntry(from, o.pending, o.timestamp, ROUTING_DIRECT)]
    else []
  }

  /** An editor outcome seen from i characters further back in the input. */
  function Shifted(e: Edit, i: nat): Edit
  {
    Edit(e.command, e.consumed + i, e.submitted)
  }

  /** The median step of autoSyncTime: the first n samples are copied to a
    * local buffer, bubble-sorted, and the middle element is taken; it is the
    * median of those samples however they were ordered. */
  method SortedMedian(samples: array<uint32>, n: nat) returns (m: uint32)
    requires 0 < n <= TIME_SAMPLE_SIZE && n <= samples.Length
    ensures m == Median(samples[..n])
  {
    var sorted := new uint32[TIME_SAMPLE_SIZE](_ => 0);
    forall k | 0 <= k < n {
      sorted[k] := samples[k];
    }
    assert sorted[..n] == samples[..n];
    BubbleSort(sorted, n);
    SortedUnique(sorted[..n], SortedCopy(samples[..n]));
    m := sorted[n / 2];
  }

  /** The reading loop of loop() up to the first CR or LF, with the fix for
    * the full buffer: backspace and DEL always shorten the line, printable
    * characters are added while it holds fewer than 520. What EditLineFixed
    * makes of the whole input is what it makes of the rest. */
  method TypeUntilEnter(command: string, input: seq<char>, ghost keepLine: string -> bool)
    returns (line: string, i: nat)
    requires ValidLine(command)
    ensures i <= |input| && ValidLine(line)
    ensures i == |input| || input[i] == '\r' || input[i] == '\n'
    ensures EditLineFixed(command, input, keepLine) == Shifted(EditLineFixed(line, input[i..], keepLine), i)
  {
    line := command;
    i := 0;
    while i < |input| && input[i] != '\r' && input[i] != '\n'
      invariant 0 <= i <= |input|
      invariant ValidLine(line)
      invariant EditLineFixed(command, input, keepLine) == Shifted(EditLineFixed(line, input[i..], keepLine), i)
    {
      var c := input[i];
      assert input[i..][0] == c && input[i..][1..] == input[i + 1..];
      var next := line;
      if c == BACKSPACE || c == DEL {
        if |line| > 0 {
          next := line[..|line| - 1];
        }
      } else if Printable(c) && |line| < MAX_COMMAND_LEN {
        next := line + [c];
      }
      assert EditLineFixed(line, input[i..], keepLine)
             == Shifted(EditLineFixed(next, input[i + 1..], keepLine), 1);
      line := next;
      i := i + 1;
    }
  }

  class MyMesh {
    const nodeName: seq<byte>                  // _prefs.node_name
    const contacts: seq<Contact>               // the mesh library's contact table

    const recentMessages: array<RecentEntry>   // recent_messages
    var recentMsgIndex: nat                    // recent_msg_index

    const timeSamples: array<uint32>           // time_samples
    var timeSampleCount: uint8                 // time_sample_count

    const messageHistory: array<HistoryEntry>  // message_history
    var historyIndex: nat                      // history_index
    var historyCount: nat                      // history_count
    ghost var historyLog: seq<HistoryEntry>    // every entry ever added

    var pendingMessage: seq<byte>              // pending_message (empty: none)
    var sendAttempt: uint8                     // send_attempt
    var pendingTimestamp: uint32               // pending_timestamp
    var expectedAckCrc: uint32                 // expected_ack_crc
    var currRecipient: Option<Contact>         // curr_recipient

    var transmissions: seq<Transmission>       // the calls made to sendMessage
    var publicPosts: seq<seq<byte>>            // the texts handed to cmdPublic
    var lastSendTooLong: bool                  // last_send_too_long
    var command: string                        // command, the line being typed
    var handled: seq<string>                   // the lines handed to handleCommand

    ghost function Dedup(): (seq<RecentEntry>, nat)
      reads this`recentMsgIndex, recentMessages
    {
      (recentMessages[..], recentMsgIndex)
    }

    ghost function Window(): SyncWindow
      reads this`timeSampleCount, timeSamples
    {
      SyncWindow(timeSamples[..], timeSampleCount)
    }

    ghost function History(): Ring
      reads this`historyIndex, this`historyCount, messageHistory
    {
      Ring(messageHistory[..], historyIndex, historyCount)
    }

    ghost function PendingState(): Outbox
      reads this`pendingMessage, this`sendAttempt, this`pendingTimestamp, this`expectedAckCrc, this`currRecipient
    {
      Outbox(pendingMessage, sendAttempt, pendingTimestamp, expectedAckCrc, currRecipient)
    }

    /** The buffers have their declared sizes, the history ring holds the last
      * ten entries added, at most three retries are ever counted, and the
      * command line is at most 520 printable characters. */
    ghost predicate Valid()
      reads this`recentMsgIndex, this`historyIndex, this`historyCount, this`historyLog, messageHistory
      reads this`sendAttempt, this`command
    {
      && recentMessages.Length == RECENT_MSG_CACHE_SIZE
      && timeSamples.Length == TIME_SAMPLE_SIZE
      && recentMsgIndex < RECENT_MSG_CACHE_SIZE
      && HistoryValid()
      && sendAttempt as nat <= MAX_SEND_ATTEMPTS
      && |nodeName| < NAME_FIELD_SIZE
      && ValidLine(command)
    }

    /** The history ring holds the last ten entries added. */
    ghost predicate HistoryValid()
      reads this`historyIndex, this`historyCount, this`historyLog, messageHistory
    {
      messageHistory.Length == MAX_MESSAGE_HISTORY && Holds(History(), historyLog)
    }

    twostate predicate DedupAndClockKept()
      reads this`recentMsgIndex, recentMessages, this`timeSampleCount, timeSamples
    {
      Dedup() == old(Dedup()) && Window() == old(Window())
    }

    twostate predicate HistoryKept()
      reads this`historyIndex, this`historyCount, this`historyLog, messageHistory
    {
      History() == old(History()) && historyLog == old(historyLog)
    }

    twostate predicate OutboxKept()
      reads this`pendingMessage, this`sendAttempt, this`pendingTimestamp, this`expectedAckCrc, this`currRecipient
      reads this`transmissions, this`publicPosts
    {
      PendingState() == old(PendingState()) && transmissions == old(transmissions)
      && publicPosts == old(publicPosts)
    }

    twostate predicate ConsoleKept()
      reads this`command, this`handled, this`lastSendTooLong
    {
      command == old(command) && handled == old(handled) && lastSendTooLong == old(lastSendTooLong)
    }

    /** The constructor's initial state: everything empty and zeroed, no
      * recipient. (expected_ack_crc is zero as the node is a static object.) */
    constructor(nodeName: seq<byte>, contacts: seq<Contact>)
      requires |nodeName| < NAME_FIELD_SIZE
      ensures Valid()
      ensures fresh(recentMessages) && fresh(timeSamples) && fresh(messageHistory)
      ensures this.nodeName == nodeName && this.contacts == contacts
      ensures Dedup() == (ChatDedup.EmptyRing, 0) && Window() == InitialWindow
      ensures History() == ChatHistory.EmptyRing && historyLog == []
      ensures PendingState() == Outbox([], 0, 0, 0, None)
      ensures transmissions == [] && publicPosts == [] && command == [] && handled == [] && !lastSendTooLong
    {
      this.nodeName := nodeName;
      this.contacts := contacts;
      recentMessages := new RecentEntry[RECENT_MSG_CACHE_SIZE](_ => RecentEntry(0, 0));
      recentMsgIndex := 0;
      timeSamples := new uint32[TIME_SAMPLE_SIZE](_ => 0);
      timeSampleCount := 0;
      messageHistory := new HistoryEntry[MAX_MESSAGE_HISTORY](_ => BlankEntry);
      historyIndex := 0;
      historyCount := 0;
      historyLog := [];
      pendingMessage := [];
      sendAttempt := 0;
      pendingTimestamp := 0;
      expectedAckCrc := 0;
      currRecipient := None;
      transmissions := [];
      publicPosts := [];
      lastSendTooLong := false;
      command := [];
      handled := [];
      new;
      assert recentMessages[..] == ChatDedup.EmptyRing;
      assert timeSamples[..] == InitialWindow.samples;
      assert messageHistory[..] == ChatHistory.EmptyRing.slots;
      EmptyRingHolds();
    }

    /** The assignment the `to` command makes once it has found the recipient. */
    method SetRecipient(to: Option<Contact>)
      requires Valid()
      modifies this`currRecipient
      ensures Valid()
      ensures currRecipient == to
      ensures pendingMessage == old(pendingMessage) && sendAttempt == old(sendAttempt)
      ensures pendingTimestamp == old(pendingTimestamp) && expectedAckCrc == old(expectedAckCrc)
      ensures transmissions == old(transmissions) && publicPosts == old(publicPosts)
      ensures DedupAndClockKept() && HistoryKept() && ConsoleKept()
    {
      currRecipient := to;
    }

    // ----- de-duplication -----

    /** The ring lookup and update shared by isRecentMessage and
      * onChannelMessageRecv. */
    method RecordIfNew(msgHash: uint32, now: uint32) returns (duplicate: bool)
      requires Valid()
      modifies this`recentMsgIndex, recentMessages
      ensures Valid()
      ensures (duplicate, Dedup().0, Dedup().1) == Check(old(Dedup().0), old(Dedup().1), msgHash, now)
      ensures Window() == old(Window()) && HistoryKept() && OutboxKept() && ConsoleKept()
    {
      var i := 0;
      while i < RECENT_MSG_CACHE_SIZE
        invariant 0 <= i <= RECENT_MSG_CACHE_SIZE
        invariant forall k :: 0 <= k < i ==> !Matches(recentMessages[k], msgHash, now)
      {
        if recentMessages[i].hash == msgHash {
          if Sub32(now, recentMessages[i].recvTime) < DEDUP_WINDOW_SECS {
            assert Matches(recentMessages[..][i], msgHash, now);
            return true;
          }
        }
        i := i + 1;
      }
      recentMessages[recentMsgIndex] := RecentEntry(msgHash, now);
      recentMsgIndex := (recentMsgIndex + 1) % RECENT_MSG_CACHE_SIZE;
      return false;
    }

    /** isRecentMessage: hash the timestamp, the sender's key and the text,
      * then look the hash up in the ring and record it when new. */
    method IsRecentMessage(timestamp: uint32, senderPubKey: seq<byte>, text: seq<byte>, now: uint32, sha: HashFn)
      returns (duplicate: bool)
      requires Valid()
      modifies this`recentMsgIndex, recentMessages
      ensures Valid()
      ensures (duplicate, Dedup().0, Dedup().1)
              == Check(old(Dedup().0), old(Dedup().1), sha(DirectHashInput(timestamp, senderPubKey, text)), now)
      ensures Window() == old(Window()) && HistoryKept() && OutboxKept() && ConsoleKept()
    {
      var msgHash := sha(DirectHashInput(timestamp, senderPubKey, text));
      duplicate := RecordIfNew(msgHash, now);
    }

    // ----- clock -----

    /** autoSyncTime, with the local bubble sort over a copy of the recent
      * samples. */
    method AutoSyncTime(senderTimestamp: uint32, ourTime: uint32) returns (setTo: Option<uint32>)
      requires Valid()
      modifies this`timeSampleCount, timeSamples
      ensures Valid()
      ensures (Window(), setTo) == AutoSync(old(Window()), senderTimestamp, ourTime)
      ensures Dedup() == old(Dedup()) && HistoryKept() && OutboxKept() && ConsoleKept()
    {
      if senderTimestamp < MIN_REASONABLE_TIMESTAMP || senderTimestamp > MAX_REASONABLE_TIMESTAMP {
        return None;
      }
      if Add32(senderTimestamp, MAX_SAMPLE_LAG_SECS) < ourTime {
        return None;
      }
      timeSamples[timeSampleCount as nat % TIME_SAMPLE_SIZE] := senderTimestamp;
      timeSampleCount := NextCount(timeSampleCount);
      assert Window() == Accept(old(Window()), senderTimestamp);
      if timeSampleCount as nat < MIN_CONSENSUS_SAMPLES {
        return None;
      }
      var numSamples: nat := if timeSampleCount as nat < TIME_SAMPLE_SIZE then timeSampleCount as nat else TIME_SAMPLE_SIZE;
      assert timeSamples[..numSamples] == Recent(Window());
      var medianTime := SortedMedian(timeSamples, numSamples);
      if medianTime > Add32(ourTime, MIN_SYNC_STEP_SECS) {
        timeSampleCount := 0;
        return Some(medianTime);
      }
      return None;
    }

    // ----- history -----

    /** addMessageToHistory: the entry goes to history_index, which advances
      * mod 10, and history_count saturates at 10. */
    method AddMessageToHistory(from: seq<byte>, text: seq<byte>, timestamp: uint32, routingType: uint8)
      requires Valid()
      modifies this`historyIndex, this`historyCount, this`historyLog, messageHistory
      ensures Valid()
      ensures History() == Add(old(History()), MakeEntry(from, text, timestamp, routingType))
      ensures historyLog == old(historyLog) + [MakeEntry(from, text, timestamp, routingType)]
      ensures DedupAndClockKept() && OutboxKept() && ConsoleKept()
    {
      var entry := MakeEntry(from, text, timestamp, routingType);
      AddKeepsTail(History(), historyLog, entry);
      messageHistory[historyIndex] := entry;
      historyIndex := (historyIndex + 1) % MAX_MESSAGE_HISTORY;
      if historyCount < MAX_MESSAGE_HISTORY {
        historyCount := historyCount + 1;
      }
      historyLog := historyLog + [entry];
    }

    /** cmdHistory: the entries it prints, in order; they are the last ten
      * messages added (all of them when fewer), oldest first. */
    method CmdHistory() returns (listing: seq<HistoryEntry>)
      requires Valid()
      ensures listing == Last(historyLog, MAX_MESSAGE_HISTORY)
    {
      listing := [];
      if historyCount == 0 {
        return;
      }
      var start := if historyIndex >= historyCount then 0 else historyIndex;
      var i := 0;
      while i < historyCount
        invariant 0 <= i <= historyCount
        invariant listing == Listing(History())[..i]
      {
        assert start == Start(History());
        listing := listing + [messageHistory[(start + i) % MAX_MESSAGE_HISTORY]];
        i := i + 1;
      }
    }

    // ----- sending, retries and acks -----

    /** trySendPendingMessage: at most one call of sendMessage; a first
      * attempt that was sent is added to the history. */
    method TrySendPendingMessage(send: SendFn)
      requires Valid()
      modifies this`pendingMessage, this`expectedAckCrc, this`transmissions
      modifies this`historyIndex, this`historyCount, this`historyLog, messageHistory
      ensures Valid()
      ensures var r := TrySend(old(PendingState()), send);
              PendingState() == r.0 && transmissions == old(transmissions) + r.1
      ensures historyLog == old(historyLog) + SentEntry(old(PendingState()), send, nodeName)
      ensures History() == AddAll(old(History()), SentEntry(old(PendingState()), send, nodeName))
      ensures DedupAndClockKept() && ConsoleKept() && publicPosts == old(publicPosts)
    {
      if currRecipient.None? || pendingMessage == [] {
        return;
      }
      var result := send(currRecipient.value, pendingTimestamp, sendAttempt, pendingMessage);
      transmissions := transmissions + [Transmission(currRecipient.value, pendingTimestamp, sendAttempt, pendingMessage)];
      match result {
        case SendFailed =>
          pendingMessage := [];
        case SentFlood(ack) =>
          expectedAckCrc := ack;
          if sendAttempt == 0 {
            AddMessageToHistory(nodeName, pendingMessage, pendingTimestamp, ROUTING_FLOOD);
          }
        case SentDirect(ack) =>
          expectedAckCrc := ack;
          if sendAttempt == 0 {
            AddMessageToHistory(nodeName, pendingMessage, pendingTimestamp, ROUTING_DIRECT);
          }
      }
    }

    /** cmdSend: with no recipient nothing is sent; to the public channel the
      * text, which must leave room for "name: ", goes to cmdPublic; otherwise
      * a text of 1..155 bytes becomes the pending message, stamped now, and
      * is sent as attempt 0. */
    method CmdSend(text: seq<byte>, now: uint32, send: SendFn)
      requires Valid()
      modifies this`lastSendTooLong, this`publicPosts, this`pendingMessage, this`pendingTimestamp
      modifies this`sendAttempt, this`expectedAckCrc, this`transmissions
      modifies this`historyIndex, this`historyCount, this`historyLog, messageHistory
      ensures Valid()
      ensures DedupAndClockKept() && command == old(command) && handled == old(handled)
      ensures old(currRecipient).None? ==>
                !lastSendTooLong && OutboxKept() && HistoryKept()
      ensures old(currRecipient).Some? && old(currRecipient).value.name == PUBLIC_NAME ==>
                var v := ValidateTextLength(text, SAFE_TEXT_LEN - (|nodeName| + 2));
                && lastSendTooLong == v.1
                && publicPosts == old(publicPosts) + (if v.0 then [text] else [])
                && PendingState() == old(PendingState()) && transmissions == old(transmissions)
                && HistoryKept()
      ensures old(currRecipient).Some? && old(currRecipient).value.name != PUBLIC_NAME ==>
                var v := ValidateTextLength(text, SAFE_TEXT_LEN);
                var started := old(PendingState()).(pending := text, timestamp := now, attempt := 0);
                && lastSendTooLong == v.1
                && publicPosts == old(publicPosts)
                && (!v.0 ==> OutboxKept() && HistoryKept())
                && (v.0 ==> var r := StartSend(old(PendingState()), text, now, send);
                            && PendingState() == r.0 && transmissions == old(transmissions) + r.1
                            && historyLog == old(historyLog) + SentEntry(started, send, nodeName))
    {
      if currRecipient.None? {
        lastSendTooLong := false;
        return;
      }
      if currRecipient.value.name == PUBLIC_NAME {
        SendPublic(text);
        return;
      }
      SendDirect(text, now, send);
    }

    /** cmdSend to the public channel: the text must leave room for the
      * "name: " prefix cmdPublic puts before it. */
    method SendPublic(text: seq<byte>)
      requires Valid()
      modifies this`lastSendTooLong, this`publicPosts
      ensures var v := ValidateTextLength(text, SAFE_TEXT_LEN - (|nodeName| + 2));
              && lastSendTooLong == v.1
              && publicPosts == old(publicPosts) + (if v.0 then [text] else [])
    {
      var verdict := ValidateTextLength(text, SAFE_TEXT_LEN - (|nodeName| + 2));
      lastSendTooLong := verdict.1;
      if !verdict.0 {
        return;
      }
      publicPosts := publicPosts + [text];
    }

    /** cmdSend to a contact: a text of 1..155 bytes becomes the pending
      * message, stamped now, and is sent as attempt 0. */
    method SendDirect(text: seq<byte>, now: uint32, send: SendFn)
      requires Valid()
      modifies this`lastSendTooLong, this`pendingMessage, this`pendingTimestamp, this`sendAttempt
      modifies this`expectedAckCrc, this`transmissions
      modifies this`historyIndex, this`historyCount, this`historyLog, messageHistory
      ensures Valid()
      ensures var v := ValidateTextLength(text, SAFE_TEXT_LEN);
              var started := old(PendingState()).(pending := text, timestamp := now, attempt := 0);
              && lastSendTooLong == v.1
              && (!v.0 ==> OutboxKept() && HistoryKept())
              && (v.0 ==> var r := StartSend(old(PendingState()), text, now, send);
                          && PendingState() == r.0 && transmissions == old(transmissions) + r.1
                          && historyLog == old(historyLog) + SentEntry(started, send, nodeName))
    {
      var verdict := ValidateTextLength(text, SAFE_TEXT_LEN);
      lastSendTooLong := verdict.1;
      if !verdict.0 {
        return;
      }
      // The text fits pending_message (161 bytes), so strncpy keeps it whole.
      assert CopyToField(text, MAX_TEXT_LEN + 1) == text;
      pendingMessage := text;
      pendingTimestamp := now;
      sendAttempt := 0;
      assert PendingState() == old(PendingState()).(pending := text, timestamp := now, attempt := 0);
      TrySendPendingMessage(send);
    }

    /** onSendTimeout: a retry while attempts remain (by flood from the second
      * retry on), otherwise the message and its ack token are dropped. */
    method OnSendTimeout(send: SendFn)
      requires Valid()
      modifies this`pendingMessage, this`expectedAckCrc, this`sendAttempt, this`currRecipient, this`transmissions
      modifies this`historyIndex, this`historyCount, this`historyLog, messageHistory
      ensures Valid()
      ensures var r := Timeout(old(PendingState()), send);
              PendingState() == r.0 && transmissions == old(transmissions) + r.1
      ensures DedupAndClockKept() && HistoryKept() && ConsoleKept() && publicPosts == old(publicPosts)
    {
      if expectedAckCrc != 0 {
        if sendAttempt as nat < MAX_SEND_ATTEMPTS && pendingMessage != [] {
          ghost var retry := Retry(PendingState());
          sendAttempt := sendAttempt + 1;
          if sendAttempt as nat >= RETRY_FALLBACK_ATTEMPT && currRecipient.Some? && currRecipient.value.outPathLen >= 0 {
            currRecipient := Some(currRecipient.value.(outPathLen := FLOOD_PATH_LEN));
          }
          assert PendingState() == retry;
          TrySendPendingMessage(send);
        } else {
          pendingMessage := [];
          expectedAckCrc := 0;
        }
      }
    }

    /** processAck: the ack matches when its four bytes are those of
      * expected_ack_crc in memory. */
    method ProcessAck(data: seq<byte>)
      requires Valid() && |data| == 4
      modifies this`expectedAckCrc, this`pendingMessage
      ensures Valid()
      ensures PendingState() == ChatSend.ProcessAck(old(PendingState()), data)
      ensures transmissions == old(transmissions) && publicPosts == old(publicPosts)
      ensures DedupAndClockKept() && HistoryKept() && ConsoleKept()
    {
      if data == LE32(expectedAckCrc) {
        expectedAckCrc := 0;
        pendingMessage := [];
      }
    }

    // ----- receiving -----

    /** onMessageRecv: the sender's timestamp is offered to the clock
      * consensus, then the message is checked against the ring (at the
      * possibly updated clock) and, when new, added to the history; a new
      * "clock sync" message asks setClock for the sender's time + 1. The
      * result is the clock reading afterwards, which never goes back. */
    method OnMessageRecv(from: Contact, senderPubKey: seq<byte>, isRouteDirect: bool,
                         senderTimestamp: uint32, text: seq<byte>, now: uint32, sha: HashFn)
      returns (clock: uint32)
      requires Valid()
      modifies this`recentMsgIndex, recentMessages, this`timeSampleCount, timeSamples
      modifies this`historyIndex, this`historyCount, this`historyLog, messageHistory
      ensures Valid()
      ensures clock >= now
      ensures var sync := AutoSync(old(Window()), senderTimestamp, now);
              var synced := if sync.1.Some? then sync.1.value else now;
              var check := Check(old(Dedup().0), old(Dedup().1),
                                 sha(DirectHashInput(senderTimestamp, senderPubKey, text)), synced);
              var entry := MakeEntry(from.name, text, senderTimestamp,
                                     if isRouteDirect then ROUTING_DIRECT else ROUTING_FLOOD);
              var requested := SetClock(Inc32(senderTimestamp), synced);
              && Window() == sync.0
              && Dedup() == (check.1, check.2)
              && (check.0 ==> HistoryKept() && clock == synced)
              && (!check.0 ==> History() == Add(old(History()), entry)
                               && historyLog == old(historyLog) + [entry])
              && (!check.0 ==> clock == (if text == CLOCK_SYNC_TEXT && requested.Some? then requested.value else synced))
      ensures OutboxKept() && ConsoleKept()
    {
      var setTo := AutoSyncTime(senderTimestamp, now);
      AutoSyncForwardOnly(old(Window()), senderTimestamp, now);
      clock := if setTo.Some? then setTo.value else now;
      var duplicate := IsRecentMessage(senderTimestamp, senderPubKey, text, clock, sha);
      if duplicate {
        return;
      }
      AddMessageToHistory(from.name, text, senderTimestamp, if isRouteDirect then ROUTING_DIRECT else ROUTING_FLOOD);
      if text == CLOCK_SYNC_TEXT {
        var requested := SetClock(Inc32(senderTimestamp), clock);
        if requested.Some? {
          clock := requested.value;
        }
      }
    }

    /** onChannelMessageRecv: as a direct message, but hashed over the
      * channel hash instead of a sender key and stored as a public entry
      * from "Public". */
    method OnChannelMessageRecv(channelHash: seq<byte>, timestamp: uint32, text: seq<byte>, now: uint32, sha: HashFn)
      returns (clock: uint32)
      requires Valid() && |channelHash| >= 2
      modifies this`recentMsgIndex, recentMessages, this`timeSampleCount, timeSamples
      modifies this`historyIndex, this`historyCount, this`historyLog, messageHistory
      ensures Valid()
      ensures clock >= now
      ensures var sync := AutoSync(old(Window()), timestamp, now);
              var synced := if sync.1.Some? then sync.1.value else now;
              var check := Check(old(Dedup().0), old(Dedup().1),
                                 sha(ChannelHashInput(timestamp, channelHash, text)), synced);
              var entry := MakeEntry(PUBLIC_NAME, text, timestamp, ROUTING_PUBLIC);
              && Window() == sync.0
              && Dedup() == (check.1, check.2)
              && clock == synced
              && (check.0 ==> HistoryKept())
              && (!check.0 ==> History() == Add(old(History()), entry)
                               && historyLog == old(historyLog) + [entry])
      ensures OutboxKept() && ConsoleKept()
    {
      var setTo := AutoSyncTime(timestamp, now);
      AutoSyncForwardOnly(old(Window()), timestamp, now);
      clock := if setTo.Some? then setTo.value else now;
      var msgHash := sha(ChannelHashInput(timestamp, channelHash, text));
      var duplicate := RecordIfNew(msgHash, clock);
      if duplicate {
        return;
      }
      AddMessageToHistory(PUBLIC_NAME, text, timestamp, ROUTING_PUBLIC);
    }

    // ----- contact numbering -----

    /** The collection loop and exchange sort shared by resolveContact and
      * cmdList: the stored contacts, newest first. */
    method RankContacts() returns (ranking: seq<ContactEntry>)
      ensures ranking == Ranking(contacts)
      ensures NewestFirst(ranking) && multiset(ranking) == multiset(Collect(contacts))
    {
      var entries := new ContactEntry[MAX_CONTACTS](_ => ContactEntry(0, 0));
      var count := 0;
      var i := 0;
      while i < MAX_CONTACTS && count < MAX_CONTACTS
        invariant 0 <= i <= MAX_CONTACTS
        invariant count == if i < |contacts| then i else |contacts|
        invariant forall k :: 0 <= k < count ==> entries[k] == ContactEntry(k, contacts[k].lastAdvertTimestamp)
      {
        if i < |contacts| {
          entries[count] := ContactEntry(i, contacts[i].lastAdvertTimestamp);
          count := count + 1;
        }
        i := i + 1;
      }
      assert entries[..count] == Collect(contacts);
      SortNewestFirst(entries, count);
      ranking := entries[..count];
    }

    /** resolveContact: a numeric argument selects the contact of that rank
      * in the newest-first ordering (NULL outside 1..count); any other
      * argument is searched for by name. */
    method ResolveContact(arg: string) returns (r: Resolution)
      ensures r == Resolve(arg, Ranking(contacts))
      ensures !AllDigits(arg) ==> r == ByName(arg)
    {
      var isNumber := true;
      var p := 0;
      while p < |arg|
        invariant 0 <= p <= |arg|
        invariant isNumber <==> AllDigits(arg[..p])
        invariant !isNumber ==> !AllDigits(arg)
      {
        if arg[p] < '0' || arg[p] > '9' {
          isNumber := false;
          break;
        }
        p := p + 1;
      }
      assert isNumber ==> arg[..p] == arg;
      var entries := RankContacts();
      if isNumber {
        var index := DecimalValue(arg) - 1;
        if 0 <= index < |entries| {
          return ByRank(entries[index].idx);
        }
        return NoSuchRank;
      }
      return ByName(arg);
    }

    /** cmdList: the table indices it prints, in order: the first n of the
      * newest-first ordering when 0 < n < count, otherwise all of it. */
    method CmdList(n: int) returns (shown: seq<nat>)
      ensures |shown| == DisplayCount(n, |Ranking(contacts)|)
      ensures forall i :: 0 <= i < |shown| ==> shown[i] == Ranking(contacts)[i].idx
    {
      var entries := RankContacts();
      shown := [];
      if |entries| == 0 {
        return;
      }
      var displayCount := if n > 0 && n < |entries| then n else |entries|;
      var i := 0;
      while i < displayCount
        invariant 0 <= i <= displayCount
        invariant |shown| == i && forall k :: 0 <= k < i ==> shown[k] == entries[k].idx
      {
        shown := shown + [entries[i].idx];
        i := i + 1;
      }
    }

    // ----- the command line -----

    /** loop()'s reading of the characters available, with the full-buffer
      * fix: the buffer, the number of characters consumed and the line handed
      * to handleCommand are those of EditLineFixed; the buffer is kept when
      * the handler flags the text as too long. */
    method Loop(input: seq<char>, keepLine: string -> bool) returns (consumed: nat)
      requires Valid()
      modifies this`command, this`handled, this`lastSendTooLong
      ensures Valid()
      ensures var e := EditLineFixed(old(command), input, keepLine);
              && command == e.command && consumed == e.consumed
              && handled == old(handled) + OptionToSeq(e.submitted)
              && lastSendTooLong == (if e.submitted.Some? then keepLine(e.submitted.value) else old(lastSendTooLong))
      ensures DedupAndClockKept() && HistoryKept() && OutboxKept()
    {
      var line, i := TypeUntilEnter(command, input, keepLine);
      command := line;
      consumed := i;
      if i < |input| {
        var c := input[i];
        assert input[i..][0] == c;
        assert input[i..] != [];
        consumed := i + 1;
        if |command| > 0 {
          handled := handled + [command];
          lastSendTooLong := keepLine(command);
          if !lastSendTooLong {
            command := [];
          }
        }
        if c == '\r' && i + 1 < |input| && input[i + 1] == '\n' {
          assert input[i..][1] == '\n';
          consumed := i + 2;
        }
      }
    }
  }
}
