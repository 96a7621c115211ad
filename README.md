# MeshCore serial modem, CubeCell radio, secure-chat node and host tools in Dafny

This project models the sequential, byte- and integer-level core of MeshCore
and proves properties of the model. It has five parts.

- **KISS framing.** The firmware's `kiss::KISSProtocol` decodes one byte at a
  time into a fixed 512-byte receive buffer and escapes frames on the way out
  (`kiss_protocol.dfy`). The Python host scripts carry their own encoder and a
  more lenient decoder (`kiss_host.dfy`). Both decoders are proved to agree
  with the firmware encoder.
- **The KISS modem command handler.** `KISSModem` checks the length of each
  request, zero-pads the PSK, keeps the statistics counters and chooses
  between flood and direct routing for packets from the host
  (`kiss_modem.dfy`).
- **The CubeCell radio wrapper.** `CubeCellRadioWrapper` is a five-state
  transport (IDLE, RX, TX, PKT_READY, TX_DONE). It also keeps a 64-sample
  noise-floor calibration window (`cubecell_radio.dfy`).
- **The simple secure-chat node.** `MyMesh` keeps a de-duplication ring, a
  clock-consensus window, a history ring, the retry state of the one
  outstanding message, contact numbering and the serial line editor. The pure
  definitions live in `chat_*.dfy`. The class that updates the node's state
  and is proved against them is in `secure_chat.dfy`.
- **Host-side packet builders and parsers.** These cover header packing,
  adverts and group text messages (`host_packets.dfy`), and the room server's
  shortest-path request cache (`room_server.dfy`).

The modelling is uniform across the parts:

- Byte values are `int` subset types declared in `bytes.dfy`.
- C's wrap-around, truncating division and narrowing are written out there.
- Cryptography and hashes are function-typed parameters: SHA-256, signing,
  AES, HMAC, `encryptThenMAC`/`MACThenDecrypt` and key exchange.
- So are the mesh library's `sendMessage` and `Packet::readFrom`,
  `os.urandom`, and the radio driver's RSSI.
- The clock is an explicit `now` parameter.
- Serial output is a ghost or plain sequence of the bytes or frames written.

## Model

| member | source | states |
|---|---|---|
| Bytes.Add32 | examples/simple_secure_chat/main.cpp:1132 | uint32 addition is the sum reduced modulo 2^32, so `sender_timestamp + 3600` can wrap |
| Bytes.Sub32 | examples/simple_secure_chat/main.cpp:436 | uint32 subtraction `now - recv_time` is the difference plus 2^32 when the entry is newer than now |
| Bytes.Inc32 | variants/heltec_cubecell/CubeCellRadioWrapper.cpp:154 | a uint32 counter's ++ adds one and wraps to 0 after 2^32 - 1 |
| Bytes.TruncDiv | variants/heltec_cubecell/CubeCellRadioWrapper.cpp:197-202 | C's int division truncates toward zero: the quotient brackets the dividend from below for positive and from above for negative dividends |
| Bytes.WrapInt16 | variants/heltec_cubecell/CubeCellRadioWrapper.cpp:205-212 | the int16_t narrowing keeps values in range and is congruent to its input modulo 2^16 |
| Bytes.LE32 | examples/simple_secure_chat/main.cpp:424 | the in-memory layout of a uint32 is four bytes |
| Bytes.LE32RoundTrip | test_kiss_monitor_chat.py:149-154 | reading back the four little-endian bytes of x gives x |
| Bytes.FromLE32RoundTrip | test_kiss_monitor_advert.py:131 | any four bytes are the little-endian encoding of the value they are read as |
| Bytes.LE32Injective | examples/simple_secure_chat/main.cpp:1209-1226 | two ack tokens compared with memcmp over four bytes match only when they are equal |
| Bytes.Slice | simple_room_server.py:188-200 | Python's `s[a:b]` clamps to the sequence; in range it is the exact slice, and its length is stated in every case |
| Bytes.Drop | simple_room_server.py:197 | Python's `s[a:]` is the suffix from a, or empty past the end |
| Bytes.RStripNul | test_kiss_monitor_chat.py:154 | `rstrip(b'\x00')` leaves a prefix that does not end in NUL, and everything it removed was NUL |
| Bytes.Zeros | test_kiss_send_chat.py:107-108 | n zero bytes |
| KissProtocol.ResponseCodesPairRequests | examples/kiss_modem/KISSProtocol.h:14-26 | every response command is its request command plus 0x10 |
| KissProtocol.CompleteFrame | examples/kiss_modem/KISSProtocol.cpp:57-67 | a frame is dispatched exactly when the buffer holds at least the command byte; the command is byte 0 and the data is the rest |
| KissProtocol.Store | examples/kiss_modem/KISSProtocol.cpp:50-54 | a byte is appended while fewer than 512 are buffered; otherwise the decoder resets and the frame is dropped |
| KissProtocol.Step | examples/kiss_modem/KISSProtocol.cpp:23-55 | processReceivedByte keeps the buffer within 512 bytes; a FEND dispatches exactly when it closes a frame with at least one byte, and then dispatches that frame; every FEND leaves an empty open frame; outside a frame, other bytes change nothing |
| KissProtocol.Run | examples/kiss_modem/KISSProtocol.cpp:16-21 | feeding a stream keeps the decoder well formed and dispatches at most one frame per byte |
| KissProtocol.EscapeByte | examples/kiss_modem/KISSProtocol.cpp:85-95 | the escape of one byte never contains FEND, and it is two bytes exactly for FEND and FESC |
| KissProtocol.EscapeShape | examples/kiss_modem/KISSProtocol.cpp:85-95 | escaped data contains no FEND and is one byte longer per FEND or FESC in it |
| KissProtocol.Encode | examples/kiss_modem/KISSProtocol.cpp:69-83 | a sent frame starts and ends with FEND and has no other FEND |
| KissProtocol.RunEscaped | examples/kiss_modem/KISSProtocol.cpp:35-54 | escaped bytes fed to an open frame with room for them are stored unescaped, and nothing is dispatched |
| KissProtocol.DecodeEncoded | examples/kiss_modem/KISSProtocol.cpp:23-95 | from any decoder state, an encoded frame of at most 512 bytes is decoded as exactly that frame; its leading FEND may first complete the frame being assembled |
| KissProtocol.RoundTrip | examples/kiss_modem/KISSProtocol.cpp:23-95 | a reset decoder fed sendFrame(cmd, data) dispatches exactly one frame (cmd, data) when 1 + len(data) <= 512 |
| KissProtocol.InvalidEscapeDropsFrame | examples/kiss_modem/KISSProtocol.cpp:35-44 | FESC followed by anything but TFEND or TFESC drops the partial frame and leaves the decoder outside any frame; the next encoded frame is still decoded intact |
| KissProtocol.OversizedFrameDropped | examples/kiss_modem/KISSProtocol.cpp:50-54 | a frame longer than 512 bytes never reaches the handler |
| KissProtocol.AfterOverflow | examples/kiss_modem/KISSProtocol.cpp:50-54 | the byte that would overflow a full buffer resets the decoder, whichever escape form it arrives in |
| KissProtocol.NoFramesOutside | examples/kiss_modem/KISSProtocol.cpp:24-33 | a reset decoder ignores everything up to the next FEND, and a FEND that opens a frame dispatches nothing |
| KissProtocol.KissProtocol.constructor | examples/kiss_modem/KISSProtocol.cpp:5-8 | a new decoder is reset and nothing has been written |
| KissProtocol.KissProtocol.ResetDecoder | examples/kiss_modem/KISSProtocol.cpp:10-14 | resetDecoder leaves an empty buffer outside any frame, not escaped |
| KissProtocol.KissProtocol.HandleCompleteFrame | examples/kiss_modem/KISSProtocol.cpp:57-67 | the handler gets `_rxBuffer[0]` and `_rxBuffer[1.._rxIndex)` exactly when `_rxIndex >= 1` |
| KissProtocol.KissProtocol.ProcessReceivedByte | examples/kiss_modem/KISSProtocol.cpp:23-55 | the in-place update of `_rxBuffer`, `_rxIndex`, `_inFrame` and `_escaped` and the dispatched frame are those of Step |
| KissProtocol.KissProtocol.Process | examples/kiss_modem/KISSProtocol.cpp:16-21 | draining a byte stream gives the state and frames of Run |
| KissProtocol.KissProtocol.SendEscapedByte | examples/kiss_modem/KISSProtocol.cpp:85-95 | writes the escape of one byte to the stream |
| KissProtocol.KissProtocol.SendFrame | examples/kiss_modem/KISSProtocol.cpp:69-83 | writes exactly the encoding of the frame and returns true |
| KissHost.HostStep | simple_room_server.py:97-114 | one iteration of `_receive_frame`: it returns a frame iff a FEND arrives with bytes buffered, and that frame is the buffer split into command and data; any other FEND opens an empty frame; bytes outside a frame are skipped |
| KissHost.HostReceive | simple_room_server.py:87-116 | a frame is returned only if a FEND arrived |
| KissHost.HostFrame | simple_room_server.py:80-85 | `_send_frame` writes FEND, the raw command byte, the escaped data and FEND |
| KissHost.EscapeBytes | simple_room_server.py:69-78 | the `_escape` loop produces the firmware's escaping of the data |
| KissHost.ReceiveFrame | simple_room_server.py:87-116 | the `_receive_frame` loop returns the frame HostReceive defines for the bytes that arrive before the timeout |
| KissHost.HostReceiveEscaped | simple_room_server.py:97-114 | the host decoder appends the bytes of an escaped run to the open frame |
| KissHost.HostDecodesFirmwareFrames | test_kiss_monitor_advert.py:68-97 | every frame the firmware sends, of any length, is received by the host exactly |
| KissHost.HostFrameIsFirmwareEncoding | test_kiss_send_chat.py:48-64 | for a command byte that is neither FEND nor FESC, the host writes the same bytes as the firmware encoder |
| KissHost.FirmwareDecodesHostFrames | test_kiss_advert.py:41-58 | the firmware decoder delivers exactly the command and data the host sent, for frames that fit its buffer |
| KissHost.HostRoundTrip | test_kiss_advert.py:41-88 | the host's own encoder and decoder round-trip every frame whose command needs no escaping |
| KissHost.LenientEscape | test_kiss_monitor_chat.py:67-96 | after FESC, a byte other than TFEND, TFESC or FEND makes the host store 0xDB while the firmware drops the frame |
| KissHost.UnescapedFendCommandMisframed | simple_room_server.py:80-85 | since the command byte is not escaped, a command equal to FEND is read back as an empty boundary and the first data byte becomes the command |
| KissModem.PaddedPsk | examples/kiss_modem/KISSModem.cpp:115-117 | the padded key is the 16 request bytes followed by zeros up to 32 bytes |
| KissModem.IsValidPacketData | examples/kiss_modem/KISSModem.cpp:182-192 | a host packet is valid iff 2 <= length <= 255; the masked route and payload checks never fail |
| KissModem.Reply | examples/kiss_modem/KISSModem.cpp:98-166 | a reply's command is the request's plus 0x10; sign is answered iff 1..1024 bytes, hash iff 1..512, key exchange iff exactly 32; encrypt needs 17..512, decrypt 34..512; encrypt and decrypt answer only with a non-empty result |
| KissModem.CipherRequestSplit | examples/kiss_modem/KISSModem.cpp:108-146 | encrypt and decrypt hand the cipher the padded key and the bytes after the first 16 |
| KissModem.DecodedRequestsOnlyLowerGuards | examples/kiss_modem/KISSModem.cpp:98-166 | for requests of at most 511 data bytes, which is all the decoder can deliver, only the lower length limits decide |
| KissModem.DecodedFramesBounded | examples/kiss_modem/KISSProtocol.cpp:50-67 | every frame the decoder dispatches carries fewer than 512 data bytes |
| KissModem.RouteFor | examples/kiss_modem/KISSModem.cpp:194-210 | sendDirect is used iff the route is not flood, is direct and has a non-empty path; otherwise sendFlood |
| KissModem.KISSModem.AllowPacketForward | examples/kiss_modem/KISSModem.h:81-83 | forwarding is allowed exactly while no host packet is being transmitted |
| KissModem.DataFrameSends | examples/kiss_modem/KISSModem.cpp:168-180 | a host data frame causes exactly one send, made while forwarding is suspended, iff it is valid and parses; otherwise none |
| KissModem.KISSModem.constructor | examples/kiss_modem/KISSModem.cpp:3-10 | all statistics start at zero and nothing has been sent |
| KissModem.KISSModem.OnKISSFrame | examples/kiss_modem/KISSModem.cpp:52-88 | every frame increments frames_from_serial; a request is answered as Reply says; a data frame sends as DataFrameSends says; unknown commands change nothing else |
| KissModem.KISSModem.SendIdentityResponse | examples/kiss_modem/KISSModem.cpp:90-95 | answers with exactly the public key under the identity response and counts one frame to serial |
| KissModem.KISSModem.HandleSignRequest | examples/kiss_modem/KISSModem.cpp:98-106 | answers (and counts) exactly when Reply gives a signature frame |
| KissModem.KISSModem.HandleEncryptRequest | examples/kiss_modem/KISSModem.cpp:108-126 | answers (and counts) exactly when Reply gives an encrypted frame |
| KissModem.KISSModem.HandleDecryptRequest | examples/kiss_modem/KISSModem.cpp:128-146 | answers (and counts) exactly when Reply gives a decrypted frame |
| KissModem.KISSModem.HandleKeyExchangeRequest | examples/kiss_modem/KISSModem.cpp:148-156 | answers (and counts) exactly when Reply gives a shared-secret frame |
| KissModem.KISSModem.HandleHashRequest | examples/kiss_modem/KISSModem.cpp:158-166 | answers (and counts) exactly when Reply gives a hash frame |
| KissModem.KISSModem.HandleDataFrame | examples/kiss_modem/KISSModem.cpp:168-180 | the radio receives exactly DataFrameSends of the frame; statistics and host output are unchanged |
| KissModem.KISSModem.TransmitPacket | examples/kiss_modem/KISSModem.cpp:194-210 | one send along RouteFor, made with forwarding suspended; the flag is cleared afterwards |
| KissModem.KISSModem.OnRecvPacket | examples/kiss_modem/KISSModem.cpp:212-220 | every received packet goes to the host as one CMD_DATA frame and increments frames_to_serial |
| CubeCellRadio.RecomputedFloor | variants/heltec_cubecell/CubeCellRadioWrapper.cpp:197-202 | the new floor is the truncating sum / 64, clamped at -120 |
| CubeCellRadio.FloorRiseBounded | variants/heltec_cubecell/CubeCellRadioWrapper.cpp:190-202 | since samples are accepted only below floor + 14, one calibration round raises the floor by at most 13 dB |
| CubeCellRadio.BwToCode | variants/heltec_cubecell/CubeCellRadioWrapper.cpp:52-64 | bwToCode returns one of the ten SX126x bandwidth codes |
| CubeCellRadio.BwToCodeMonotone | variants/heltec_cubecell/CubeCellRadioWrapper.cpp:52-64 | a wider bandwidth never selects a narrower code, and the standard bandwidths select their own codes |
| CubeCellRadio.ScoreIndexAsWritten | variants/heltec_cubecell/CubeCellRadioWrapper.cpp:259-263 | packetScore indexes the table at sf - 7 whenever sf >= 7 |
| CubeCellRadio.ScoreIndexOverrun | variants/heltec_cubecell/CubeCellRadioWrapper.cpp:259-263 | sf = 13 passes the guard and indexes one past the end of snr_threshold |
| CubeCellRadio.ScoreIndex | variants/heltec_cubecell/CubeCellRadioWrapper.cpp:66-73 | the guard the table needs: an index exists iff 7 <= sf <= 12, and it selects -7.5 - 2.5 * (sf - 7) dB |
| CubeCellRadio.CubeCellRadioWrapper.constructor | variants/heltec_cubecell/CubeCellRadioWrapper.cpp:75-87 | starts IDLE with zeroed counters and calibration |
| CubeCellRadio.CubeCellRadioWrapper.Begin | variants/heltec_cubecell/CubeCellRadioWrapper.cpp:127-138 | clears calibration and counters, starts the receiver and enters RX |
| CubeCellRadio.CubeCellRadioWrapper.OnRxDone | variants/heltec_cubecell/CubeCellRadioWrapper.cpp:21-30 | keeps at most 255 payload bytes, records RSSI and SNR and enters PKT_READY |
| CubeCellRadio.CubeCellRadioWrapper.OnTxDone | variants/heltec_cubecell/CubeCellRadioWrapper.cpp:32-35 | enters TX_DONE and changes nothing else |
| CubeCellRadio.CubeCellRadioWrapper.OnRxTimeout | variants/heltec_cubecell/CubeCellRadioWrapper.cpp:37-40 | enters IDLE and changes nothing else |
| CubeCellRadio.CubeCellRadioWrapper.OnRxError | variants/heltec_cubecell/CubeCellRadioWrapper.cpp:42-45 | enters IDLE and changes nothing else |
| CubeCellRadio.CubeCellRadioWrapper.OnTxTimeout | variants/heltec_cubecell/CubeCellRadioWrapper.cpp:47-50 | enters IDLE and changes nothing else |
| CubeCellRadio.CubeCellRadioWrapper.RecvRaw | variants/heltec_cubecell/CubeCellRadioWrapper.cpp:140-160 | in PKT_READY copies min(len, sz) bytes and counts a receive only for a positive length; from PKT_READY or IDLE always re-arms RX; in RX, TX or TX_DONE returns 0 and changes nothing |
| CubeCellRadio.CubeCellRadioWrapper.StartSendRaw | variants/heltec_cubecell/CubeCellRadioWrapper.cpp:162-168 | from any state, calls the pre-transmit hook, sends the first len mod 256 bytes, enters TX and returns true |
| CubeCellRadio.CubeCellRadioWrapper.IsSendComplete | variants/heltec_cubecell/CubeCellRadioWrapper.cpp:170-178 | true exactly in TX_DONE, which it leaves for IDLE while counting one send; so a second call returns false |
| CubeCellRadio.CubeCellRadioWrapper.OnSendFinished | variants/heltec_cubecell/CubeCellRadioWrapper.cpp:180-184 | calls the post-transmit hook and enters IDLE |
| CubeCellRadio.CubeCellRadioWrapper.Loop | variants/heltec_cubecell/CubeCellRadioWrapper.cpp:186-203 | samples only in RX with fewer than 64 samples; accepts a reading only below floor + 14; recomputes the floor after 64 samples with a non-zero sum; the floor rises by at most 13 |
| CubeCellRadio.CubeCellRadioWrapper.TriggerNoiseFloorCalibrate | variants/heltec_cubecell/CubeCellRadioWrapper.cpp:205-212 | always stores the threshold narrowed to int16; restarts the window only after a full one |
| CubeCellRadio.CubeCellRadioWrapper.ResetAGC | variants/heltec_cubecell/CubeCellRadioWrapper.cpp:214-221 | moves IDLE and RX to IDLE and leaves the other states alone |
| CubeCellRadio.CubeCellRadioWrapper.GetNoiseFloor | variants/heltec_cubecell/CubeCellRadioWrapper.h:38 | returns the stored floor unchanged, which never falls below -120 |
| CubeCellRadio.CubeCellRadioWrapper.IsInRecvMode | variants/heltec_cubecell/CubeCellRadioWrapper.cpp:223-226 | in receive mode in RX and PKT_READY, never while idle or transmitting |
| CubeCellRadio.CubeCellRadioWrapper.IsChannelActive | variants/heltec_cubecell/CubeCellRadioWrapper.cpp:233-237 | never active with a zero threshold; otherwise active iff the RSSI exceeds floor + threshold |
| CubeCellRadio.CubeCellRadioWrapper.IsReceiving | variants/heltec_cubecell/CubeCellRadioWrapper.cpp:228-231 | receiving iff the channel is active |
| CubeCellRadio.CubeCellRadioWrapper.GetPacketsRecv | variants/heltec_cubecell/CubeCellRadioWrapper.h:47 | the receive counter that RecvRaw advances |
| CubeCellRadio.CubeCellRadioWrapper.GetPacketsSent | variants/heltec_cubecell/CubeCellRadioWrapper.h:48 | the send counter that IsSendComplete advances |
| CubeCellRadio.CubeCellRadioWrapper.GetLastRSSI | variants/heltec_cubecell/CubeCellRadioWrapper.cpp:244-247 | the RSSI OnRxDone stored for the last packet |
| CubeCellRadio.CubeCellRadioWrapper.GetLastSNR | variants/heltec_cubecell/CubeCellRadioWrapper.cpp:249-252 | the SNR OnRxDone stored for the last packet |
| CubeCellRadio.CubeCellRadioWrapper.PassesScoreGate | variants/heltec_cubecell/CubeCellRadioWrapper.cpp:259-263 | with the corrected ScoreIndex: a reading passes packetScore's early exits iff sf is 7..12 and the SNR reaches that factor's table entry |
| CubeCellRadio.CubeCellRadioWrapper.GetPacketsRecvErrors | variants/heltec_cubecell/CubeCellRadioWrapper.h:49 | always 0: nothing increments the counter |
| ChatText.LeadingDigits | examples/simple_secure_chat/main.cpp:115-122 | the length of the digit run at the start of the string, ending at the first non-digit |
| ChatText.Atoi | examples/simple_secure_chat/main.cpp:115-122 | `_atoi` returns the value of the leading digits modulo 2^32 |
| ChatText.AtoiExact | examples/simple_secure_chat/main.cpp:115-122 | for a number below 2^32, `_atoi` returns its exact value |
| ChatText.ValidateTextLength | examples/simple_secure_chat/main.cpp:325-342 | a text may be sent iff 0 < length <= max; last_send_too_long is set iff it is too long |
| ChatText.SkipSpaces | examples/simple_secure_chat/main.cpp:1077 | drops exactly the leading spaces |
| ChatText.TrimToHex | examples/simple_secure_chat/main.cpp:1080-1085 | cuts everything after the last hex digit, and only non-hex characters |
| ChatText.CardHex | examples/simple_secure_chat/main.cpp:1076-1106 | without "meshcore://" after the leading spaces the card is invalid; with it, the hex is the text after the prefix cut after its last hex digit, accepted iff non-empty, of even length and at most 256 bytes, "too large" iff even and over 256 bytes, otherwise invalid |
| ChatText.ImportCard | examples/simple_secure_chat/main.cpp:1076-1107 | "too large" is reported iff the prefix is present and the trimmed hex has even length of more than 512 characters; no prefix means invalid format; a card is imported iff it is well formed, decodes and `importContact` accepts it, and rejected iff it is well formed, decodes and `importContact` refuses it |
| ChatText.TrimCard | examples/simple_secure_chat/main.cpp:1077 | the leading-space loop gives SkipSpaces |
| ChatText.TrimTail | examples/simple_secure_chat/main.cpp:1080-1085 | the trailing-junk loop gives TrimToHex |
| ChatText.EnterConsumed | examples/simple_secure_chat/main.cpp:1700-1706 | CR LF is consumed as one line end |
| ChatText.EditLine | examples/simple_secure_chat/main.cpp:1672-1733 | the loop() editor as written never consumes more than the available input |
| ChatText.EditLineKeepsValid | examples/simple_secure_chat/main.cpp:1676-1726 | the buffer and every submitted line stay at most 520 printable characters |
| ChatText.FullBufferIgnoresEnter | examples/simple_secure_chat/main.cpp:1676 | with 520 characters buffered, neither Enter nor backspace is read |
| ChatText.EditLineFixed | examples/simple_secure_chat/main.cpp:1728-1732 | the editor as its own comment intends never consumes more than the available input |
| ChatText.FixedEditorSubmits | examples/simple_secure_chat/main.cpp:1728-1732 | with the fix, typed text followed by Enter is always submitted as a valid line extending the buffer |
| ChatClock.SetClock | examples/simple_secure_chat/main.cpp:1054-1074 | the clock is set iff 1600000000 <= t <= 4102444800 and t is later than the current time, and then to t |
| ChatClock.SortedCopy | examples/simple_secure_chat/main.cpp:1150-1159 | an independent reference sort: sorted and a permutation |
| ChatClock.Median | examples/simple_secure_chat/main.cpp:1146-1161 | the median is one of the samples |
| ChatClock.MedianNeedsMajority | examples/simple_secure_chat/main.cpp:1161-1164 | the median exceeds a bound only if at least half the samples, rounded up, do |
| ChatClock.NextCount | examples/simple_secure_chat/main.cpp:1138 | the uint8 sample count's ++ wraps to 0 after 255 |
| ChatClock.Accept | examples/simple_secure_chat/main.cpp:1137-1138 | an accepted sample goes to slot count % 5, no other slot changes, and the count advances |
| ChatClock.Recent | examples/simple_secure_chat/main.cpp:1146-1148 | the median is taken over the first min(count, 5) slots |
| ChatClock.AutoSync | examples/simple_secure_chat/main.cpp:1123-1174 | an implausible or stale sample leaves window and clock untouched; a plausible one is accepted; the clock is set iff the sample is plausible, the window then holds at least three samples and their median is more than 10 s ahead, and it is set to that median; a clock change resets the count |
| ChatClock.AutoSyncForwardOnly | examples/simple_secure_chat/main.cpp:1163-1173 | the consensus only moves the clock forward, by more than 10 seconds |
| ChatClock.AutoSyncConsensus | examples/simple_secure_chat/main.cpp:1140-1173 | a clock change needs at least three samples, takes one of their values, and a majority of them are more than 10 s ahead |
| ChatClock.AutoSyncWaitsForThree | examples/simple_secure_chat/main.cpp:1140-1143 | the first two samples after a reset only fill the window |
| ChatClock.ThreeAgreeingSamplesSync | examples/simple_secure_chat/main.cpp:1137-1173 | three agreeing senders more than 10 s ahead move the clock to their time on the third sample |
| ChatClock.BubbleSort | examples/simple_secure_chat/main.cpp:1150-1159 | the in-place bubble sort leaves the first n samples sorted and permuted, and the rest of the buffer untouched |
| ChatClock.BubblePass | examples/simple_secure_chat/main.cpp:1152-1158 | one inner pass moves the largest unsorted sample to the top of the unsorted part |
| ChatClock.SwapAdjacent | examples/simple_secure_chat/main.cpp:1153-1157 | the exchange keeps the sorted top part sorted and above the rest |
| ChatContacts.Collect | examples/simple_secure_chat/main.cpp:383-390 | one entry per stored contact, up to 100, in table order, with its advert timestamp |
| ChatContacts.RankingStartsWithNewest | examples/simple_secure_chat/main.cpp:392-401 | the first entry of the ranking is at least as recent as every contact |
| ChatContacts.SortNewestFirst | examples/simple_secure_chat/main.cpp:392-401 | the in-place exchange sort leaves exactly ExchangeSort of the entries, which is newest first and a permutation; the rest of the array is untouched |
| ChatContacts.SelectNewest | examples/simple_secure_chat/main.cpp:394-400 | the inner loop for position i leaves exactly SelectFrom of the entries |
| ChatContacts.Swap | examples/simple_secure_chat/main.cpp:396-398 | entries i and j are exchanged and nothing else changes |
| ChatContacts.ExchangeSortRanks | examples/simple_secure_chat/main.cpp:392-401 | the exchange sort, as a function of the collected entries, orders them newest first and is a permutation of them |
| ChatContacts.SelectFromPlaces | examples/simple_secure_chat/main.cpp:394-400 | the inner loop for position i leaves entry i at least as new as every later entry, keeps the earlier ones placed, and loses nothing |
| ChatContacts.Resolve | examples/simple_secure_chat/main.cpp:362-416 | a non-numeric argument is a name prefix; a numeric argument n selects ranked entry n - 1 iff 1 <= n <= count, else nothing |
| ChatContacts.DisplayCount | examples/simple_secure_chat/main.cpp:585 | cmdList shows n entries when 0 < n < count, else all of them |
| ChatDedup.Check | examples/simple_secure_chat/main.cpp:432-447 | a duplicate iff some slot has the hash and is less than 300 s old (uint32 difference), and then the ring is untouched; otherwise (hash, now) goes to the index, which advances mod 10, and no other slot changes |
| ChatDedup.RepeatWithinWindowDetected | examples/simple_secure_chat/main.cpp:432-447 | a repeat of a newly recorded message within 300 s is caught |
| ChatDedup.RecordAll | examples/simple_secure_chat/main.cpp:443-445 | recording keeps the ring at ten slots and the index in range |
| ChatDedup.RecordAllKeepsOtherSlots | examples/simple_secure_chat/main.cpp:443-445 | FIFO by slot: the next k new messages overwrite only the k slots from the index on |
| ChatDedup.RecordedEntrySurvivesNine | examples/simple_secure_chat/main.cpp:432-447 | a recorded message survives the next nine new messages |
| ChatDedup.DirectHashInput | examples/simple_secure_chat/main.cpp:420-429 | the hashed bytes are the LE32 timestamp, the sender key, then the text |
| ChatDedup.ChannelHashInput | examples/simple_secure_chat/main.cpp:1318-1328 | the channel path hashes the LE32 timestamp, two channel-hash bytes, then the text |
| ChatHistory.CopyToField | examples/simple_secure_chat/main.cpp:1230-1231 | strncpy into a field keeps a prefix of at most size - 1 bytes, and the whole string when it fits |
| ChatHistory.MakeEntry | examples/simple_secure_chat/main.cpp:1228-1234 | the stored name is under 32 bytes, the text at most 160, and timestamp and type are kept |
| ChatHistory.Add | examples/simple_secure_chat/main.cpp:1228-1239 | the ring keeps ten slots and an index below ten |
| ChatHistory.Listing | examples/simple_secure_chat/main.cpp:607-609 | cmdHistory visits history_count entries |
| ChatHistory.EmptyRingHolds | examples/simple_secure_chat/main.cpp:1395-1418 | the zeroed ring holds the empty log |
| ChatHistory.AddKeepsTail | examples/simple_secure_chat/main.cpp:1228-1239 | adding an entry keeps count = min(n, 10), index = n mod 10, and the listing = the last ten entries |
| ChatHistory.ListingFromZero | examples/simple_secure_chat/main.cpp:607 | while the ring is filling, the listing is slots 0..count in order |
| ChatHistory.ListingIsLastTen | examples/simple_secure_chat/main.cpp:599-628 | after any sequence of messages, cmdHistory lists the last ten (or all), oldest first |
| ChatHistory.AddAll | examples/simple_secure_chat/main.cpp:1228-1239 | repeated adds keep the ring's shape |
| ChatSend.TrySend | examples/simple_secure_chat/main.cpp:450-477 | at most one send, made iff there is a recipient and a pending text; after a send, a failure clears the text and a flood or direct success arms the ack token it returns, nothing else changing; without a send nothing changes |
| ChatSend.Timeout | examples/simple_secure_chat/main.cpp:1360-1388 | nothing happens without an armed token; at the attempt limit or with no text the text and token are cleared; an armed retry under the limit with a text and a recipient resends the text once, as the next attempt, to the (possibly flood-switched) recipient |
| ChatSend.Retry | examples/simple_secure_chat/main.cpp:1364-1375 | the retry counts one more attempt for the same text |
| ChatSend.ProcessAck | examples/simple_secure_chat/main.cpp:1209-1226 | an ack equal to the token's four bytes clears the token and the text; any other ack changes nothing |
| ChatSend.StartSend | examples/simple_secure_chat/main.cpp:500-509 | a new message starts at attempt 0 |
| ChatSend.TimeoutSpendsBudget | examples/simple_secure_chat/main.cpp:1360-1388 | each timeout sends at most once, and only by spending a retry |
| ChatSend.TimeoutsWithinBudget | examples/simple_secure_chat/main.cpp:1360-1388 | any number of timeouts sends no more than the remaining retries |
| ChatSend.AtMostFourTransmissions | examples/simple_secure_chat/main.cpp:146-147 | one message is transmitted at most four times, however many timeouts follow |
| ChatSend.RetryFallsBackToFlood | examples/simple_secure_chat/main.cpp:1368-1373 | from the second retry on, the message is resent by flood |
| ChatSend.AckStopsRetries | examples/simple_secure_chat/main.cpp:1209-1226 | after the matching ack no retry happens, and a repeated ack changes nothing |
| SecureChat.SentEntry | examples/simple_secure_chat/main.cpp:463-470 | only a first attempt that sendMessage accepted is added to history, at most once |
| SecureChat.SortedMedian | examples/simple_secure_chat/main.cpp:1146-1161 | copy, bubble sort and middle element give the median of the samples |
| SecureChat.TypeUntilEnter | examples/simple_secure_chat/main.cpp:1676-1726 | the character loop up to the first line end keeps a valid line and agrees with the corrected editor EditLineFixed |
| SecureChat.MyMesh.constructor | examples/simple_secure_chat/main.cpp:1395-1418 | all rings, windows, counters and the outbox start empty and zeroed |
| SecureChat.MyMesh.SetRecipient | examples/simple_secure_chat/main.cpp:675-700 | sets curr_recipient and nothing else |
| SecureChat.MyMesh.RecordIfNew | examples/simple_secure_chat/main.cpp:432-447 | the ring lookup and update are those of Check |
| SecureChat.MyMesh.IsRecentMessage | examples/simple_secure_chat/main.cpp:418-448 | hashes timestamp, sender key and text, then checks and updates the ring as Check |
| SecureChat.MyMesh.AutoSyncTime | examples/simple_secure_chat/main.cpp:1123-1174 | the window and the clock setting are those of AutoSync |
| SecureChat.MyMesh.AddMessageToHistory | examples/simple_secure_chat/main.cpp:1228-1239 | the ring becomes Add of the entry, and the ring keeps holding the last ten entries |
| SecureChat.MyMesh.CmdHistory | examples/simple_secure_chat/main.cpp:599-628 | the entries listed are the last ten added, oldest first |
| SecureChat.MyMesh.TrySendPendingMessage | examples/simple_secure_chat/main.cpp:450-477 | the outbox and the transmissions are those of TrySend, and history gains SentEntry |
| SecureChat.MyMesh.CmdSend | examples/simple_secure_chat/main.cpp:483-510 | no recipient sends nothing; to Public, the text must leave room for "name: "; otherwise a text of 1..155 bytes becomes pending at attempt 0 and is sent |
| SecureChat.MyMesh.SendPublic | examples/simple_secure_chat/main.cpp:490-497 | the public-channel branch posts the text iff it passes the shorter length limit |
| SecureChat.MyMesh.SendDirect | examples/simple_secure_chat/main.cpp:500-509 | the direct branch starts a send iff the text passes the 155-byte limit |
| SecureChat.MyMesh.OnSendTimeout | examples/simple_secure_chat/main.cpp:1360-1388 | the outbox and transmissions are those of Timeout |
| SecureChat.MyMesh.ProcessAck | examples/simple_secure_chat/main.cpp:1209-1226 | the outbox becomes ChatSend.ProcessAck of the ack |
| SecureChat.MyMesh.OnMessageRecv | examples/simple_secure_chat/main.cpp:1241-1268 | clock consensus first, then the de-dup check at the synced time; a new message is added to history and "clock sync" asks setClock for time + 1; the clock never goes back |
| SecureChat.MyMesh.OnChannelMessageRecv | examples/simple_secure_chat/main.cpp:1300-1342 | as a direct message, but the de-dup hash covers the channel hash, and the history type is public |
| SecureChat.MyMesh.RankContacts | examples/simple_secure_chat/main.cpp:383-401 | collection and exchange sort give exactly Ranking(contacts), the exchange sort of the collected entries: newest first and a permutation of them |
| SecureChat.MyMesh.ResolveContact | examples/simple_secure_chat/main.cpp:362-416 | the resolution is Resolve over Ranking(contacts), the same ranking cmdList numbers, ties included |
| SecureChat.MyMesh.CmdList | examples/simple_secure_chat/main.cpp:547-597 | shows DisplayCount entries, the first ones of Ranking(contacts), so the number printed beside a contact is the number resolveContact maps to it |
| SecureChat.MyMesh.Loop | examples/simple_secure_chat/main.cpp:1672-1733 | buffer, consumed characters and submitted line are those of the corrected editor EditLineFixed; the buffer is kept iff the handler flags the text too long |
| HostPackets.RouteOf | simple_room_server.py:193 | the route type is the low two bits of the header |
| HostPackets.PayloadTypeOf | simple_room_server.py:194 | the payload type is the next four bits |
| HostPackets.Header | simple_room_server.py:177 | `route \| (type << 2)` fits in six bits, and the parser reads route and type back |
| HostPackets.HeaderFieldsDetermineHeader | simple_room_server.py:188-200 | a header with its top two bits clear is determined by its parsed fields |
| HostPackets.BuilderHeaders | simple_room_server.py:305-326 | the builders write 0x11 (advert), 0x15 (group text), 0x05 (response) and 0x21 (path) |
| HostPackets.ParsePacket | simple_room_server.py:188-200 | None iff fewer than two bytes; otherwise the header fields, the path clamped to what is there, and the rest as payload |
| HostPackets.Layout | simple_room_server.py:305-326 | header, path length, path and payload, in that order |
| HostPackets.ParseInvertsLayout | simple_room_server.py:188-200 | parse_packet inverts the builders' layout |
| HostPackets.TypeName | test_kiss_monitor_advert.py:146-159 | types 0..3 of the low nibble are named, anything else is unknown, and 3 is room_server |
| HostPackets.FromLE32Signed | test_kiss_monitor_advert.py:161-165 | `struct.unpack('<i')` is the unsigned value, less 2^32 when the top bit is set |
| HostPackets.ParseAppData | test_kiss_monitor_advert.py:146-169 | the location is read iff flag 0x10 and 8 bytes follow; the name is read iff flag 0x80 and bytes remain, NUL-trimmed |
| HostPackets.ParseAdvertPacket | test_kiss_monitor_advert.py:111-171 | accepted iff at least two bytes, payload type 4 and a payload of at least 100 bytes; key, hash, LE32 time and path length as snr |
| HostPackets.RoomAppData | test_kiss_advert.py:105-106 | 0x83 then the name: a room server with a name and no location |
| HostPackets.CreateRoomAdvert | test_kiss_advert.py:104-118 | signs key, LE32 time and app data; fails unless the signature is 64 bytes; the packet is [0x11, 0] with key, time, signature and app data |
| HostPackets.RoomAdvertRoundTrip | test_kiss_advert.py:115-118 | the monitor reads a built room advert back as a room server with that key, time and NUL-trimmed name |
| HostPackets.Padded | test_kiss_send_chat.py:107-108 | zero padding of 0..15 bytes to a multiple of 16 |
| HostPackets.EncryptGroupMessage | test_kiss_send_chat.py:106-117 | a 2-byte truncated HMAC of the ciphertext, then the ciphertext of the padded text under the first 16 key bytes |
| HostPackets.ChatText | test_kiss_send_chat.py:124 | "name: message" is the two strings and two bytes between them |
| HostPackets.GroupPlaintext | test_kiss_send_chat.py:121-126 | LE32 timestamp, flags 0, then the text |
| HostPackets.CreateGroupChatMessage | test_kiss_send_chat.py:120-135 | header byte 0x15 and path length 0, read back as a flood GRP_TXT packet with an empty path whose payload is the channel hash then the encrypted text |
| HostPackets.ParseGroupTextPacket | test_kiss_monitor_chat.py:120-161 | accepted iff type 5, two payload bytes, a matching channel hash and a plaintext of at least 5 bytes; then LE32 time, flags and NUL-trimmed message |
| HostPackets.RStripNulPadding | test_kiss_monitor_chat.py:154 | the NUL trim removes the sender's zero padding |
| HostPackets.GroupChatRoundTrip | test_kiss_send_chat.py:120-135 | a group message built for a key is read back by the monitor with that key as the sender's time, flags 0 and "name: message" |
| RoomServer.GetPacketKey | simple_room_server.py:202-213 | only ANON_REQ payloads of at least 51 bytes are keyed, by the sender key and the payload hash |
| RoomServer.KeyIgnoresRoute | simple_room_server.py:202-213 | copies of one request by any route share a key; different senders never do |
| RoomServer.LoginBody | simple_room_server.py:280-287 | LE32 time, 0x00 0 0 0x01, four random bytes, 0x01 |
| RoomServer.PathDataLocatesPath | simple_room_server.py:311-326 | the path data's length byte locates the path, the embedded type and the response |
| RoomServer.AddressedParses | simple_room_server.py:305-326 | both reply layouts read back as flood packets with an empty path carrying the two hashes and the encrypted bytes |
| RoomServer.CreateResponse | simple_room_server.py:305-309 | a RESPONSE packet that reads back as flood-routed with an empty path, carrying the destination hash, this server's hash and the encrypted bytes |
| RoomServer.CreatePathReturn | simple_room_server.py:311-326 | returns a packet iff encrypting the path data yields bytes; the packet reads back as a flood PATH packet with an empty path, carrying the two hashes and the encrypted path data |
| RoomServer.LoginResponse | simple_room_server.py:251-303 | a packet is sent only for a request that passes all four checks (length, address, shared secret, decryption); LoginResponseAnswers gives the rest |
| RoomServer.LoginResponseAnswers | simple_room_server.py:251-303 | a request not addressed to this server, or failing any check, is never answered; an accepted flood request gets a PATH return, any other a RESPONSE, sent exactly when encryption yields bytes |
| RoomServer.SharedSecretSplitByModem | simple_room_server.py:133-136 | the modem takes only the first 16 bytes of the 32-byte secret as key and decrypts the other 16 with the packet |
| RoomServer.Select | simple_room_server.py:233-236 | the selected keys are cached keys, at most as many as the order holds |
| RoomServer.Restrict | simple_room_server.py:241-249 | keeps exactly the entries with the given expiry, unchanged |
| RoomServer.SelectContents | simple_room_server.py:229-249 | a key is selected iff it is ordered, cached and has the given expiry; distinct orders give distinct selections |
| RoomServer.WithoutExpired | simple_room_server.py:238-239 | removing the expired keys leaves the unexpired ones, in order |
| RoomServer.CacheInsert | simple_room_server.py:215-227 | a new key is stored with its arrival time; a known key keeps its time and is replaced only by a strictly shorter path |
| RoomServer.TwoCopiesKeepShorterPath | simple_room_server.py:215-227 | two copies of a request leave one entry, timed by the first, holding the shorter path (the first on a tie) |
| RoomServer.CleanupAfterProcessFindsNothing | simple_room_server.py:229-249 | after processing removes entries 3 s or older, cleanup (more than 5 s) finds nothing |
| RoomServer.SweepResult | simple_room_server.py:229-249 | a sweep keeps exactly the unexpired entries, in order |
| RoomServer.SimpleRoomServer.constructor | simple_room_server.py:154-161 | empty cache; my hash is the key's first byte |
| RoomServer.SimpleRoomServer.CreateRoomAdvert | simple_room_server.py:166-180 | the advert built for this server reads back as this room |
| RoomServer.SimpleRoomServer.CachePacket | simple_room_server.py:215-227 | the cache and its order become CacheInsert's |
| RoomServer.SimpleRoomServer.HandlePacket | simple_room_server.py:328-331 | parses and caches only anonymous requests |
| RoomServer.SimpleRoomServer.ProcessCachedPackets | simple_room_server.py:229-239 | every entry 3 s or older is handled once, in insertion order, then removed; the rest stay; the n-th request handled is answered with the n-th reading of the clock and the n-th random draw |
| RoomServer.SimpleRoomServer.HandleDue | simple_room_server.py:232-236 | the first loop hands every due entry, in order, to the handler and notes its key |
| RoomServer.SimpleRoomServer.CleanupOldCacheEntries | simple_room_server.py:241-249 | drops exactly the entries more than 5 s old |
| RoomServer.SimpleRoomServer.RemoveKeys | simple_room_server.py:238-239 | the deletion loop removes exactly the listed keys from the cache and its order |

## Left out

- Serial and stream plumbing is outside the model: pyserial, `Stream`, `SerialPort` printing and the `_receive_frame` timeout. The bytes that arrive before a timeout are a parameter.
- The terminal UI and `handleCommand`'s text dispatch are left out. handleCommand is represented only by the lines handed to it, and by whether it left `last_send_too_long` set.
- Cryptography and hashing are function-typed parameters with no properties assumed: SHA-256, Ed25519 signing, key exchange, AES, HMAC, `encryptThenMAC` and `MACThenDecrypt`.
- `os.urandom` is a parameter.
- The room server's `time.time()` is a `real` parameter. `int(time.time())` is a `uint32`-valued function of the request number, because each login response reads the clock afresh after the previous one's 0.3 s sleep. How far apart those readings are is not constrained. Times past 2^32 are not modelled.
- The mesh library is outside the model: `BaseChatMesh::sendMessage`, `sendFlood`/`sendDirect`, `createGroupDatagram`, `Packet::readFrom`, the contact table and `searchContactsByPrefix`. Sends are function parameters or recorded calls.
- The contact table is a sequence whose positions are the table indices. An index for which `getContactByIdx` fails is not modelled.
- The re-lookup of the ranked contact by name prefix in resolveContact is not modelled.
- The mesh library's constants come from headers that are not part of this model. They are taken as MAX_TRANS_UNIT 255, MAX_TEXT_LEN 160, CIPHER_KEY_SIZE 16, CIPHER_MAC_SIZE 2, PUB_KEY_SIZE 32 and SIGNATURE_SIZE 64.
- Floating-point code is left out: packetScore's arithmetic (only its table index is modelled), `last_snr`, `showSignalBar`, the advert latitude/longitude division and the airtime factors.
- BwToCode compares over `real`, not IEEE floats.
- The radio driver (`::Radio.*`, `Rssi`, `IrqProcess`) and the board hooks are recorded calls. RSSI readings are method parameters.
- The `volatile cc_state` shared with interrupt callbacks is treated as sequential events. Interleavings inside a method are not modelled.
- Persistence, identity, `begin()`, the preferences, and examples/kiss_modem/main.cpp are outside the model. That main.cpp uses a different modem API from the class modelled here.
- The version, build-date and role getters of KISSModem.h are the constants `FIRMWARE_VERSION`, `FIRMWARE_BUILD_DATE` and `FIRMWARE_ROLE`.
- KissModem.Reply: the signing, key-exchange and hash parameters may return byte strings of any length. The firmware always answers with fixed-size arrays (64, 32 and 32 bytes), so the model's replies carry whatever the parameters return rather than exactly those sizes.
- CubeCellRadio.CubeCellRadioWrapper.GetPacketsRecv, GetPacketsSent, GetLastRSSI and GetLastSNR are plain field reads. What the fields mean is stated by the contracts of RecvRaw, IsSendComplete and OnRxDone, which set them.
- KissModem.KISSModem.GetStats returns the counters and has no contract of its own.
- cmdPublic is reduced to the post it makes (`publicPosts`). Its group-datagram construction and its history entry are not modelled, because they go through the mesh library.
- ChatContacts.Resolve reads the argument's digits as an unbounded number. C's `atoi` overflow on more than nine digits is undefined behaviour and is not modelled.
- SecureChat.MyMesh.SetRecipient models only the assignment. cmdSetRecipient's name validation and prefix search belong to the mesh library.
- `curr_recipient` is a value, not a pointer into the contact table. Aliasing is not modelled, so the flood fallback rewrites the model's copy.
- `expected_ack_crc` starts at 0, as the zero-initialised global does in the source.
- `pending_message[0] == 0` is modelled as the empty pending text.
- The room server's packet key uses only the first four bytes of SHA-256 as a parameter. `sha256` is otherwise uninterpreted.
- Paths of 256 bytes or more, which make Python's `bytes([len(path)])` raise, are excluded by the `Path` type.
- The room server's `run` loop, its sleeps, its logging and its advert timer are left out.
- The room server passes the 32-byte shared secret where the modem expects a 16-byte key. RoomServer.SharedSecretSplitByModem states what the modem then does. Whether the MeshCore peer expects that split is outside this model.
- SecureChat.MyMesh.Loop reads input with the full-buffer fix described under Findings. The editor as written is ChatText.EditLine.
- Advert names and chat texts stay bytes. Their UTF-8 decoding (`errors='ignore'`) is not modelled.
- Host-side header bit fields are written arithmetically (`h % 4`, `(h / 4) % 16`), not with bit-vector operations.
- CubeCellRadio.CubeCellRadioWrapper.StartSendRaw has no guard on the current state, as in variants/heltec_cubecell/CubeCellRadioWrapper.cpp:162-168, and RecvRaw called in PKT_READY or IDLE always re-arms the receiver, even when it returns 0, as in variants/heltec_cubecell/CubeCellRadioWrapper.cpp:140-160.

## Findings

| source | as written | input that shows it | evidently intended | confidence | as-written member | corrected member |
|---|---|---|---|---|---|---|
| variants/heltec_cubecell/CubeCellRadioWrapper.cpp:259-263 | packetScore guards the `snr_threshold[sf - 7]` lookup only with `sf < 7`, so sf 13..255 index past the six-entry table | sf = 13 gives index 6 | score only spreading factors 7..12, which the table covers | not executed | CubeCellRadio.ScoreIndexAsWritten (with CubeCellRadio.ScoreIndexOverrun) | CubeCellRadio.ScoreIndex |
| examples/simple_secure_chat/main.cpp:1676 | loop() reads characters only while `len < sizeof(command) - 2`, so once 520 characters are buffered nothing is read, including Enter and backspace | a 520-character line followed by "\r" | the comment at line 1730: a full buffer still lets the user send or backspace | not executed | ChatText.EditLine (with ChatText.FullBufferIgnoresEnter) | ChatText.EditLineFixed (with ChatText.FixedEditorSubmits) |
