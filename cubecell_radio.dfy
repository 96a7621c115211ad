// The radio transport of the Heltec CubeCell variant (CubeCellRadioWrapper):
// a five-state machine driven by driver callbacks and by the mesh's polling
// calls, and the noise-floor estimator that listen-before-talk relies on.
//
// The file-static driver state (cc_state, rx_pkt_buf, rx_pkt_len and the last
// RSSI/SNR) becomes fields of the one wrapper object; driver callbacks are
// methods called between the wrapper's own methods. Calls into the radio
// driver and the board hooks are recorded in two logs; RSSI readings are
// method parameters.

module CubeCellRadio {
  import opened Bytes

  /** cc_state: STATE_IDLE, STATE_RX, STATE_TX, STATE_PKT_READY, STATE_TX_DONE. */
  datatype RadioState = Idle | Rx | Tx | PktReady | TxDone

  /** Calls the wrapper makes into the radio driver: ::Radio.RxBoosted(0), ::Radio.Send. */
  datatype DriverCall = StartRx | Send(payload: seq<byte>)

  /** Calls into the board: onBeforeTransmit, onAfterTransmit. */
  datatype BoardHook = BeforeTransmit | AfterTransmit

  const RX_PKT_BUF_SIZE: nat := 255
  const NUM_NOISE_FLOOR_SAMPLES: nat := 64
  const SAMPLING_THRESHOLD: int := 14
  const NOISE_FLOOR_MIN: int := -120
  const DEFAULT_SF: byte := 11

  /** The new noise floor from a full window's sum: C's truncating sum / 64,
    * narrowed to int16, then clamped at -120. */
  function RecomputedFloor(sum: int32): (f: int16)
    requires -0x8000 * NUM_NOISE_FLOOR_SAMPLES <= sum <= 0x7FFF * NUM_NOISE_FLOOR_SAMPLES
    ensures f >= NOISE_FLOOR_MIN
    ensures TruncDiv(sum, 64) >= NOISE_FLOOR_MIN ==> f == TruncDiv(sum, 64)
    ensures TruncDiv(sum, 64) < NOISE_FLOOR_MIN ==> f == NOISE_FLOOR_MIN
  {
    var q := WrapInt16(TruncDiv(sum, NUM_NOISE_FLOOR_SAMPLES));
    if q < NOISE_FLOOR_MIN then NOISE_FLOOR_MIN else q
  }

  /** Samples are accepted only below floor + 14, so a full window can raise
    * the floor by at most 13 dB per calibration round. */
  lemma {:induction false} FloorRiseBounded(floor: int16, sum: int32)
    requires floor >= NOISE_FLOOR_MIN
    requires -0x8000 * 64 <= sum <= 0x7FFF * 64
    requires sum <= 64 * (floor + SAMPLING_THRESHOLD - 1)
    ensures RecomputedFloor(sum) <= floor + SAMPLING_THRESHOLD - 1
  {
    var q := TruncDiv(sum, 64);
    assert 64 * q < 64 * (floor + SAMPLING_THRESHOLD);
  }

  /** bwToCode: SX126x bandwidth register code for a bandwidth in kHz. */
  function BwToCode(bwKhz: real): (code: byte)
    ensures code in {0, 8, 1, 9, 2, 10, 3, 4, 5, 6}
  {
    if bwKhz <= 7.8 then 0
    else if bwKhz <= 10.4 then 8
    else if bwKhz <= 15.6 then 1
    else if bwKhz <= 20.8 then 9
    else if bwKhz <= 31.25 then 2
    else if bwKhz <= 41.7 then 10
    else if bwKhz <= 62.5 then 3
    else if bwKhz <= 125.0 then 4
    else if bwKhz <= 250.0 then 5
    else 6
  }

  /** Position of a bandwidth code in increasing bandwidth order. */
  function BandwidthRank(code: byte): nat {
    match code
      case 0 => 0 case 8 => 1 case 1 => 2 case 9 => 3 case 2 => 4
      case 10 => 5 case 3 => 6 case 4 => 7 case 5 => 8 case _ => 9
  }

  /** A wider requested bandwidth never selects a narrower code, and each
    * standard LoRa bandwidth selects its own code. */
  lemma BwToCodeMonotone(a: real, b: real)
    requires a <= b
    ensures BandwidthRank(BwToCode(a)) <= BandwidthRank(BwToCode(b))
    ensures BwToCode(7.8) == 0 && BwToCode(62.5) == 3
    ensures BwToCode(125.0) == 4 && BwToCode(250.0) == 5 && BwToCode(500.0) == 6
  {
  }

  /** snr_threshold[]: demodulation floor in dB for spreading factors 7..12. */
  const SNR_THRESHOLD: seq<real> := [-7.5, -10.0, -12.5, -15.0, -17.5, -20.0]

  /** packetScore's table index exactly as written: only sf < 7 is excluded. */
  function ScoreIndexAsWritten(sf: byte): (r: Option<int>)
    ensures r.Some? <==> sf >= 7
    ensures r.Some? ==> r.value == sf - 7
  {
    if sf < 7 then None else Some(sf - 7)
  }

  /** sf = 13 passes the guard and indexes one past the end of the table. */
  lemma ScoreIndexOverrun()
    ensures ScoreIndexAsWritten(13) == Some(|SNR_THRESHOLD|)
  {
  }

  /** The guard the table needs: a spreading factor the table covers. */
  function ScoreIndex(sf: byte): (r: Option<nat>)
    ensures r.Some? <==> 7 <= sf <= 12
    ensures r.Some? ==> r.value < |SNR_THRESHOLD| && SNR_THRESHOLD[r.value] == -7.5 - 2.5 * (sf - 7) as real
    ensures r.Some? ==> ScoreIndexAsWritten(sf) == Some(r.value as int)
  {
    if sf < 7 || sf > 12 then None else Some(sf - 7)
  }

  /** CubeCellRadioWrapper together with the driver state it shares with its callbacks. */
  class CubeCellRadioWrapper {
    var state: RadioState
    const rxPktBuf: array<byte>
    var rxPktLen: nat
    var rxLastRssi: int16
    var rxLastSnr: int8
    var nRecv: uint32
    var nSent: uint32
    var nRecvErrors: uint32
    var noiseFloor: int16
    var threshold: int16
    var numFloorSamples: uint16
    var floorSampleSum: int32
    var sf: byte
    var driverCalls: seq<DriverCall>
    var boardHooks: seq<BoardHook>

    /** The calibration window: its sample count and sum stay in range, and
      * while a window is filling every accepted sample lay below floor + 14. */
    ghost predicate CalibrationValid()
      reads this
    {
      numFloorSamples <= NUM_NOISE_FLOOR_SAMPLES
      && noiseFloor >= NOISE_FLOOR_MIN
      && -0x8000 * numFloorSamples <= floorSampleSum <= 0x7FFF * numFloorSamples
      && ((numFloorSamples < NUM_NOISE_FLOOR_SAMPLES || floorSampleSum != 0) ==>
            floorSampleSum <= numFloorSamples * (noiseFloor + SAMPLING_THRESHOLD - 1))
    }

    ghost predicate Valid()
      reads this
    {
      rxPktBuf.Length == RX_PKT_BUF_SIZE
      && rxPktLen <= RX_PKT_BUF_SIZE
      && nRecvErrors == 0
      && CalibrationValid()
    }

    twostate predicate CalibrationUnchanged()
      reads this
    {
      noiseFloor == old(noiseFloor) && threshold == old(threshold)
      && numFloorSamples == old(numFloorSamples) && floorSampleSum == old(floorSampleSum)
    }

    twostate predicate ReceptionUnchanged()
      reads this
    {
      rxPktLen == old(rxPktLen) && rxLastRssi == old(rxLastRssi) && rxLastSnr == old(rxLastSnr)
      && sf == old(sf)
    }

    constructor ()
      ensures Valid() && fresh(rxPktBuf)
      ensures state == Idle && nRecv == 0 && nSent == 0
      ensures noiseFloor == 0 && threshold == 0 && numFloorSamples == 0 && floorSampleSum == 0
      ensures sf == DEFAULT_SF && rxPktLen == 0
      ensures driverCalls == [] && boardHooks == []
    {
      state := Idle;
      rxPktBuf := new byte[RX_PKT_BUF_SIZE];
      rxPktLen := 0;
      rxLastRssi := 0;
      rxLastSnr := 0;
      nRecv, nSent, nRecvErrors := 0, 0, 0;
      noiseFloor := 0;
      threshold := 0;
      numFloorSamples := 0;
      floorSampleSum := 0;
      sf := DEFAULT_SF;
      driverCalls := [];
      boardHooks := [];
    }

    /** begin: clears calibration and counters and starts listening. */
    method Begin()
      requires Valid()
      modifies this
      ensures Valid() && ReceptionUnchanged()
      ensures state == Rx && driverCalls == old(driverCalls) + [StartRx]
      ensures noiseFloor == 0 && threshold == 0 && numFloorSamples == 0 && floorSampleSum == 0
      ensures nRecv == 0 && nSent == 0 && boardHooks == old(boardHooks)
    {
      state := Idle;
      noiseFloor := 0;
      threshold := 0;
      numFloorSamples := 0;
      floorSampleSum := 0;
      nRecv, nSent, nRecvErrors := 0, 0, 0;
      driverCalls := driverCalls + [StartRx];
      state := Rx;
    }

    // ----- driver callbacks -----

    /** ccOnRxDone: keeps at most 255 bytes of the packet and marks it ready. */
    method OnRxDone(payload: seq<byte>, rssi: int16, snr: int8)
      requires Valid() && |payload| < 0x1_0000
      modifies this, rxPktBuf
      ensures Valid() && CalibrationUnchanged() && sf == old(sf)
      ensures state == PktReady
      ensures rxPktLen == if |payload| > RX_PKT_BUF_SIZE then RX_PKT_BUF_SIZE else |payload|
      ensures rxPktBuf[..rxPktLen] == payload[..rxPktLen]
      ensures rxLastRssi == rssi && rxLastSnr == snr
      ensures nRecv == old(nRecv) && nSent == old(nSent)
      ensures driverCalls == old(driverCalls) && boardHooks == old(boardHooks)
    {
      var size := |payload|;
      if size > RX_PKT_BUF_SIZE {
        size := RX_PKT_BUF_SIZE;
      }
      forall i | 0 <= i < size {
        rxPktBuf[i] := payload[i];
      }
      rxPktLen := size;
      rxLastRssi := rssi;
      rxLastSnr := snr;
      state := PktReady;
    }

    /** ccOnTxDone. */
    method OnTxDone()
      requires Valid()
      modifies this
      ensures Valid() && state == TxDone
      ensures CalibrationUnchanged() && ReceptionUnchanged()
      ensures nRecv == old(nRecv) && nSent == old(nSent)
      ensures driverCalls == old(driverCalls) && boardHooks == old(boardHooks)
    {
      state := TxDone;
    }

    /** ccOnRxTimeout, ccOnRxError and ccOnTxTimeout all return to idle. */
    method OnRxTimeout()
      requires Valid()
      modifies this
      ensures Valid() && state == Idle
      ensures CalibrationUnchanged() && ReceptionUnchanged()
      ensures nRecv == old(nRecv) && nSent == old(nSent)
      ensures driverCalls == old(driverCalls) && boardHooks == old(boardHooks)
    {
      state := Idle;
    }

    method OnRxError()
      requires Valid()
      modifies this
      ensures Valid() && state == Idle
      ensures CalibrationUnchanged() && ReceptionUnchanged()
      ensures nRecv == old(nRecv) && nSent == old(nSent)
      ensures driverCalls == old(driverCalls) && boardHooks == old(boardHooks)
    {
      state := Idle;
    }

    method OnTxTimeout()
      requires Valid()
      modifies this
      ensures Valid() && state == Idle
      ensures CalibrationUnchanged() && ReceptionUnchanged()
      ensures nRecv == old(nRecv) && nSent == old(nSent)
      ensures driverCalls == old(driverCalls) && boardHooks == old(boardHooks)
    {
      state := Idle;
    }

    // ----- the mesh-facing transitions -----

    /** recvRaw: hands over a ready packet (at most sz bytes) and keeps the
      * receiver armed. A negative sz is returned as the length, unchanged. */
    method RecvRaw(bytes: array<byte>, sz: int) returns (len: int)
      requires Valid() && bytes != rxPktBuf && sz <= bytes.Length
      modifies this, bytes
      ensures Valid() && CalibrationUnchanged() && ReceptionUnchanged()
      ensures nSent == old(nSent) && boardHooks == old(boardHooks)
      ensures old(state) == PktReady ==> len == (if old(rxPktLen) > sz then sz else old(rxPktLen))
      ensures old(state) != PktReady ==> len == 0
      ensures len > 0 ==> bytes[..len] == rxPktBuf[..len] && nRecv == Inc32(old(nRecv))
      ensures len <= 0 ==> nRecv == old(nRecv)
      ensures forall i :: 0 <= i < bytes.Length && i >= len ==> bytes[i] == old(bytes[i])
      ensures old(state) in {PktReady, Idle} ==> state == Rx && driverCalls == old(driverCalls) + [StartRx]
      ensures old(state) !in {PktReady, Idle} ==> state == old(state) && driverCalls == old(driverCalls)
    {
      len := 0;
      if state == PktReady {
        len := rxPktLen;
        if len > sz {
          len := sz;
        }
        if len > 0 {
          forall i | 0 <= i < len {
            bytes[i] := rxPktBuf[i];
          }
          nRecv := Inc32(nRecv);
        }
        state := Idle;
      }
      if state == Idle {
        driverCalls := driverCalls + [StartRx];
        state := Rx;
      }
    }

    /** startSendRaw: no guard on the current state; the length is narrowed to uint8_t. */
    method StartSendRaw(bytes: seq<byte>, len: int) returns (ok: bool)
      requires Valid() && 0 <= len <= |bytes|
      modifies this
      ensures Valid() && CalibrationUnchanged() && ReceptionUnchanged()
      ensures ok && state == Tx
      ensures boardHooks == old(boardHooks) + [BeforeTransmit]
      ensures driverCalls == old(driverCalls) + [Send(bytes[..len % 256])]
      ensures nRecv == old(nRecv) && nSent == old(nSent)
    {
      boardHooks := boardHooks + [BeforeTransmit];
      driverCalls := driverCalls + [Send(bytes[..len % 256])];
      state := Tx;
      ok := true;
    }

    /** isSendComplete: true once per completed transmission. */
    method IsSendComplete() returns (done: bool)
      requires Valid()
      modifies this
      ensures Valid() && CalibrationUnchanged() && ReceptionUnchanged()
      ensures done <==> old(state) == TxDone
      ensures done ==> state == Idle && nSent == Inc32(old(nSent))
      ensures !done ==> state == old(state) && nSent == old(nSent)
      ensures nRecv == old(nRecv) && driverCalls == old(driverCalls) && boardHooks == old(boardHooks)
    {
      if state == TxDone {
        state := Idle;
        nSent := Inc32(nSent);
        return true;
      }
      return false;
    }

    /** onSendFinished. */
    method OnSendFinished()
      requires Valid()
      modifies this
      ensures Valid() && CalibrationUnchanged() && ReceptionUnchanged()
      ensures state == Idle && boardHooks == old(boardHooks) + [AfterTransmit]
      ensures nRecv == old(nRecv) && nSent == old(nSent) && driverCalls == old(driverCalls)
    {
      boardHooks := boardHooks + [AfterTransmit];
      state := Idle;
    }

    /** loop: one calibration step, given the RSSI the driver would report. */
    method Loop(rssi: int16)
      requires Valid()
      modifies this
      ensures Valid() && ReceptionUnchanged() && threshold == old(threshold)
      ensures state == old(state) && nRecv == old(nRecv) && nSent == old(nSent)
      ensures driverCalls == old(driverCalls) && boardHooks == old(boardHooks)
      ensures old(state) == Rx && old(numFloorSamples) < NUM_NOISE_FLOOR_SAMPLES ==>
        noiseFloor == old(noiseFloor)
        && (if rssi < old(noiseFloor) + SAMPLING_THRESHOLD
            then numFloorSamples == old(numFloorSamples) + 1 && floorSampleSum == old(floorSampleSum) + rssi
            else numFloorSamples == old(numFloorSamples) && floorSampleSum == old(floorSampleSum))
      ensures !(old(state) == Rx && old(numFloorSamples) < NUM_NOISE_FLOOR_SAMPLES) ==>
        numFloorSamples == old(numFloorSamples)
        && (if old(numFloorSamples) >= NUM_NOISE_FLOOR_SAMPLES && old(floorSampleSum) != 0
            then noiseFloor == RecomputedFloor(old(floorSampleSum)) && floorSampleSum == 0
            else noiseFloor == old(noiseFloor) && floorSampleSum == old(floorSampleSum))
      ensures noiseFloor <= old(noiseFloor) + SAMPLING_THRESHOLD - 1
    {
      if state == Rx && numFloorSamples < NUM_NOISE_FLOOR_SAMPLES {
        if rssi < noiseFloor + SAMPLING_THRESHOLD {
          assert (numFloorSamples + 1) * (noiseFloor + SAMPLING_THRESHOLD - 1)
              == numFloorSamples * (noiseFloor + SAMPLING_THRESHOLD - 1) + (noiseFloor + SAMPLING_THRESHOLD - 1);
          numFloorSamples := numFloorSamples + 1;
          floorSampleSum := floorSampleSum + rssi;
        }
      } else if numFloorSamples >= NUM_NOISE_FLOOR_SAMPLES && floorSampleSum != 0 {
        FloorRiseBounded(noiseFloor, floorSampleSum);
        noiseFloor := RecomputedFloor(floorSampleSum);
        floorSampleSum := 0;
      }
    }

    /** triggerNoiseFloorCalibrate: always stores the threshold (narrowed to
      * int16_t); starts a new window only after a full one. */
    method TriggerNoiseFloorCalibrate(thr: int32)
      requires Valid()
      modifies this
      ensures Valid() && ReceptionUnchanged() && noiseFloor == old(noiseFloor)
      ensures threshold == WrapInt16(thr)
      ensures old(numFloorSamples) >= NUM_NOISE_FLOOR_SAMPLES ==> numFloorSamples == 0 && floorSampleSum == 0
      ensures old(numFloorSamples) < NUM_NOISE_FLOOR_SAMPLES ==>
        numFloorSamples == old(numFloorSamples) && floorSampleSum == old(floorSampleSum)
      ensures state == old(state) && nRecv == old(nRecv) && nSent == old(nSent)
      ensures driverCalls == old(driverCalls) && boardHooks == old(boardHooks)
    {
      threshold := WrapInt16(thr);
      if numFloorSamples >= NUM_NOISE_FLOOR_SAMPLES {
        numFloorSamples := 0;
        floorSampleSum := 0;
      }
    }

    /** resetAGC: drops back to idle only from IDLE or RX. */
    method ResetAGC()
      requires Valid()
      modifies this
      ensures Valid() && CalibrationUnchanged() && ReceptionUnchanged()
      ensures old(state) in {PktReady, Tx, TxDone} ==> state == old(state)
      ensures old(state) in {Idle, Rx} ==> state == Idle
      ensures nRecv == old(nRecv) && nSent == old(nSent)
      ensures driverCalls == old(driverCalls) && boardHooks == old(boardHooks)
    {
      if state == PktReady || state == Tx || state == TxDone {
        return;
      }
      state := Idle;
    }

    // ----- queries -----

    /** isInRecvMode: listening, or holding a packet not yet collected. */
    predicate IsInRecvMode()
      reads this
      ensures IsInRecvMode() ==> state != Tx && state != TxDone && state != Idle
      ensures state == Rx ==> IsInRecvMode()
      ensures state == PktReady ==> IsInRecvMode()
    {
      state == Rx || state == PktReady
    }

    /** isChannelActive (private; reached through isReceiving). */
    predicate IsChannelActive(rssi: int16)
      reads this
      ensures threshold == 0 ==> !IsChannelActive(rssi)
      ensures threshold != 0 ==> (IsChannelActive(rssi) <==> rssi > noiseFloor + threshold)
    {
      threshold != 0 && rssi > noiseFloor + threshold
    }

    /** isReceiving, for the given current RSSI reading. */
    predicate IsReceiving(rssi: int16)
      reads this
      ensures IsReceiving(rssi) <==> IsChannelActive(rssi)
    {
      IsChannelActive(rssi)
    }

    function GetNoiseFloor(): (f: int)
      reads this
      requires Valid()
      ensures f == noiseFloor && f >= NOISE_FLOOR_MIN
    {
      noiseFloor
    }

    function GetPacketsRecv(): (r: uint32)
      reads this
      ensures r == nRecv
    {
      nRecv
    }

    function GetPacketsSent(): (r: uint32)
      reads this
      ensures r == nSent
    {
      nSent
    }

    /** getPacketsRecvErrors: nothing ever increments the counter. */
    function GetPacketsRecvErrors(): (n: uint32)
      reads this
      requires Valid()
      ensures n == 0
    {
      nRecvErrors
    }

    function GetLastRSSI(): (r: int16)
      reads this
      ensures r == rxLastRssi
    {
      rxLastRssi
    }

    function GetLastSNR(): (r: int8)
      reads this
      ensures r == rxLastSnr
    {
      rxLastSnr
    }

    /** packetScore's early exits: a reading is scored above zero only when
      * the spreading factor has a table entry and the SNR reaches it. */
    predicate PassesScoreGate(snr: real)
      reads this
      ensures PassesScoreGate(snr) <==> 7 <= sf <= 12 && snr >= SNR_THRESHOLD[sf as int - 7]
    {
      match ScoreIndex(sf)
        case None => false
        case Some(i) => snr >= SNR_THRESHOLD[i]
    }
  }
}
