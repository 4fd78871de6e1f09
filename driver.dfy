/**
 * The driver object: its control-register bytes, the `sensor_fault` flag,
 * the serializer, the trimming values, and the hardware bring-up chain.
 *
 * Every bus transaction (open, write, wait, read, close) is one abstract
 * outcome given as a parameter.  Each asynchronous call is cut at its
 * suspension points into the steps below, which a caller runs in the order
 * the promises settle:
 *   - a user read is RequestRead (fault gate and `lock()`), then, once the
 *     lock is granted, ReadSensor or ReadSensorData;
 *   - a user write is RequestWrite, then WriteSensor;
 *   - a bring-up attempt is InitHardware; a failed attempt is followed by
 *     RetryTimerFires when its two-second timer expires, then by the next
 *     InitHardware.
 */
module Driver {
  import opened Outcomes
  import opened Bytes
  import opened Registers
  import opened Calibration
  import opened Compensation
  import opened Serializer

  /** What a read transaction gave back: the bytes read, or a failure at any step. */
  datatype BusRead = Received(bytes: seq<Byte>) | BusFault

  /** A register transaction put on the wire. */
  datatype Transaction = WriteReg(register: int, payload: seq<Byte>) | ReadReg(register: int, count: nat)

  /**
   * The bring-up chain (`_initHardware`): none in flight, an attempt under
   * way, or a failed attempt whose retry timer is pending.
   */
  datatype InitPhase = Idle | Running | RetryWait

  /** How the entry of a user read or write ended. */
  datatype Admission = Refused(error: DriverError) | Holding | Waiting

  /** The waiter id of the constructor's own `lock()`. */
  const DriverWaiter: WaiterId := 0

  /** The five transactions of a bring-up attempt, in order. */
  function InitTransactions(ctrlHum: Byte, ctrlMeas: Byte): seq<Transaction>
  {
    [ReadReg(RegHwId, 1), WriteReg(RegCtrlHum, [ctrlHum]), WriteReg(RegCtrlMeas, [ctrlMeas]),
     ReadReg(RegCalibLow, 26), ReadReg(RegCalibHigh, 7)]
  }

  /** The identity read delivered the chip id 0x60. */
  predicate IdentityOk(oId: BusRead)
  {
    oId.Received? && |oId.bytes| == 1 && oId.bytes[0] == ChipId
  }

  /** How many of the identity read and the two control writes run before the first failure stops them. */
  function Configured(oId: BusRead, humOk: bool, measOk: bool): nat
  {
    if !IdentityOk(oId) then 1
    else if !humOk then 2
    else 3
  }

  /** How many transactions of an attempt run before the first failure stops it. */
  function Attempted(oId: BusRead, humOk: bool, measOk: bool, o1: BusRead): nat
  {
    if !ReachesInitDig(oId, humOk, measOk) then Configured(oId, humOk, measOk)
    else if o1.BusFault? then 4
    else 5
  }

  /** The attempt reached the trimming-parameter reads. */
  predicate ReachesInitDig(oId: BusRead, humOk: bool, measOk: bool)
  {
    IdentityOk(oId) && humOk && measOk
  }

  /** One of the attempt's read transactions failed (only those set `sensor_fault` at once). */
  predicate InitReadFailed(oId: BusRead, humOk: bool, measOk: bool, o1: BusRead, o2: BusRead)
  {
    oId.BusFault? || (ReachesInitDig(oId, humOk, measOk) && (o1.BusFault? || o2.BusFault?))
  }

  /** The mutex went through exactly one `release()`. */
  twostate predicate ReleasedOnce(m: Mutex)
    reads m
  {
    m.State() == ReleaseStep(old(m.State())).next &&
    m.requests == old(m.requests) &&
    m.grants == old(m.grants) + Grants(ReleaseStep(old(m.State())))
  }

  /** The mutex went through exactly one `lock()` by w. */
  twostate predicate LockedOnce(m: Mutex, w: WaiterId)
    reads m
  {
    m.State() == LockStep(old(m.State()), w).next &&
    m.requests == old(m.requests) + [w] &&
    m.grants == old(m.grants) + Grants(LockStep(old(m.State()), w))
  }

  class Bme280 {
    const ctrlMeas: Byte
    const ctrlHum: Byte
    const mutex: Mutex
    var sensorFault: bool
    var init: InitPhase
    var tempPressTrim: Option<TempPressTrim>
    var humidityTrim: Option<HumidityTrim>
    ghost var wire: seq<Transaction>

    /**
     * While a bring-up chain is in flight it holds the lock; the sensor is
     * only marked faulty while a chain is in flight, so a fault is always
     * being recovered from; with no chain in flight both trimming blocks
     * have been loaded.
     */
    ghost predicate Valid()
      reads this, mutex
    {
      mutex.Valid() &&
      (init != Idle ==> mutex.locked) &&
      (sensorFault ==> init != Idle) &&
      (init == Idle ==> tempPressTrim.Some? && humidityTrim.Some?) &&
      ctrlMeas == 0x93 && ctrlHum == 4
    }

    /**
     * 8x oversampling for all three quantities in normal mode; the
     * constructor takes the lock for the bring-up chain it starts.
     */
    constructor ()
      ensures Valid() && fresh(mutex)
      ensures ctrlMeas == CtrlMeas(OversamplingCode(8).value, OversamplingCode(8).value)
      ensures ctrlHum == OversamplingCode(8).value
      ensures !sensorFault && init == Running
      ensures mutex.locked && mutex.queue == [] && mutex.requests == [DriverWaiter] && mutex.grants == [DriverWaiter]
      ensures tempPressTrim == None && humidityTrim == None && wire == []
    {
      assert OversamplingCode(8) == Some(4) && CtrlMeas(4, 4) == 0x93 by {
        DriverControlBytes();
      }
      var osrsP := OversamplingCode(8).value;
      var osrsT := OversamplingCode(8).value;
      var osrsH := OversamplingCode(8).value;
      ctrlMeas := CtrlMeas(osrsT, osrsP);
      ctrlHum := osrsH;
      sensorFault := false;
      mutex := new Mutex();
      init := Running;
      tempPressTrim, humidityTrim := None, None;
      wire := [];
      new;
      var _ := mutex.Lock(DriverWaiter);
    }

    /**
     * Entry of a user `readSensor`: a faulty sensor refuses at once,
     * without locking and without bus traffic; otherwise the caller
     * `lock()`s and either holds the lock or waits in the queue.
     */
    method RequestRead(w: WaiterId) returns (a: Admission)
      requires Valid()
      modifies mutex
      ensures Valid()
      ensures old(sensorFault) ==> a == Refused(NotReady) && unchanged(mutex)
      ensures !old(sensorFault) ==> a == (if old(mutex.locked) then Waiting else Holding) && LockedOnce(mutex, w)
    {
      if sensorFault {
        return Refused(NotReady);
      }
      var immediate := mutex.Lock(w);
      a := if immediate then Holding else Waiting;
    }

    /** Entry of a user `writeSensor`: there is no fault gate; the caller `lock()`s. */
    method RequestWrite(w: WaiterId) returns (a: Admission)
      requires Valid()
      modifies mutex
      ensures Valid()
      ensures a == (if old(mutex.locked) then Waiting else Holding) && LockedOnce(mutex, w)
    {
      var immediate := mutex.Lock(w);
      a := if immediate then Holding else Waiting;
    }

    /**
     * The transaction of `readSensor(register, count, onInit)`.  A user
     * call runs it holding the lock; the bring-up chain runs it without
     * touching the lock.  A failure marks the sensor faulty and, for a user
     * call only, starts a bring-up chain that inherits the still-held lock;
     * a user call that succeeds releases the lock.
     */
    method ReadSensor(register: int, count: nat, onInit: bool, outcome: BusRead) returns (r: Result<seq<Byte>>)
      requires Valid()
      requires outcome.Received? ==> |outcome.bytes| == count
      requires onInit ==> init == Running
      requires !onInit ==> init == Idle && mutex.locked
      modifies this, if onInit then {} else {mutex}
      ensures Valid()
      ensures r == if outcome.Received? then Ok(outcome.bytes) else Err(BusError)
      ensures wire == old(wire) + [ReadReg(register, count)]
      ensures sensorFault == (old(sensorFault) || outcome.BusFault?)
      ensures tempPressTrim == old(tempPressTrim) && humidityTrim == old(humidityTrim)
      ensures onInit ==> init == old(init)
      ensures !onInit && outcome.BusFault? ==> init == Running && unchanged(mutex)
      ensures !onInit && outcome.Received? ==> init == Idle && ReleasedOnce(mutex)
    {
      wire := wire + [ReadReg(register, count)];
      if outcome.BusFault? {
        sensorFault := true;
        if !onInit {
          init := Running;
        }
        return Err(BusError);
      }
      if !onInit {
        var _ := mutex.Release();
      }
      r := Ok(outcome.bytes);
    }

    /**
     * The transaction of `writeSensor(register, payload, onInit)`.  It
     * never changes `sensor_fault`; a user call releases the lock whether
     * the transaction succeeded or not.
     */
    method WriteSensor(register: int, payload: seq<Byte>, onInit: bool, busOk: bool) returns (r: Result<bool>)
      requires Valid()
      requires !onInit ==> init == Idle && mutex.locked
      modifies this, if onInit then {} else {mutex}
      ensures Valid()
      ensures r == if busOk then Ok(true) else Err(BusError)
      ensures wire == old(wire) + [WriteReg(register, payload)]
      ensures sensorFault == old(sensorFault) && init == old(init)
      ensures tempPressTrim == old(tempPressTrim) && humidityTrim == old(humidityTrim)
      ensures !onInit ==> ReleasedOnce(mutex)
    {
      wire := wire + [WriteReg(register, payload)];
      if !onInit {
        var _ := mutex.Release();
      }
      r := if busOk then Ok(true) else Err(BusError);
    }

    /** `_checkHWID`: the identity register must hold 0x60. */
    method CheckHwId(outcome: BusRead) returns (r: Result<bool>)
      requires Valid() && init == Running
      requires outcome.Received? ==> |outcome.bytes| == 1
      modifies this
      ensures Valid()
      ensures r.Ok? <==> IdentityOk(outcome)
      ensures outcome.BusFault? ==> r == Err(BusError)
      ensures outcome.Received? && !IdentityOk(outcome) ==> r == Err(HardwareIdError)
      ensures wire == old(wire) + [ReadReg(RegHwId, 1)]
      ensures sensorFault == (old(sensorFault) || outcome.BusFault?)
      ensures init == old(init)
      ensures tempPressTrim == old(tempPressTrim) && humidityTrim == old(humidityTrim)
    {
      var data := ReadSensor(RegHwId, 1, true, outcome);
      if data.Err? {
        return Err(data.error);
      }
      if data.value[0] != ChipId {
        return Err(HardwareIdError);
      }
      r := Ok(true);
    }

    /**
     * `_initDig`: the 26-byte block is decoded and stored as soon as it
     * arrives, before the 7-byte block is read.
     */
    method InitDig(o1: BusRead, o2: BusRead) returns (r: Result<bool>)
      requires Valid() && init == Running
      requires o1.Received? ==> |o1.bytes| == 26
      requires o2.Received? ==> |o2.bytes| == 7
      modifies this
      ensures Valid()
      ensures r.Ok? <==> o1.Received? && o2.Received?
      ensures r.Err? ==> r.error == BusError
      ensures tempPressTrim == if o1.Received? then Some(DecodeTempPress(o1.bytes)) else old(tempPressTrim)
      ensures humidityTrim == if o1.Received? && o2.Received? then Some(DecodeHumidity(o2.bytes)) else old(humidityTrim)
      ensures sensorFault == (old(sensorFault) || o1.BusFault? || (o1.Received? && o2.BusFault?))
      ensures wire == old(wire) + (if o1.Received? then [ReadReg(RegCalibLow, 26), ReadReg(RegCalibHigh, 7)]
                                   else [ReadReg(RegCalibLow, 26)])
      ensures init == old(init)
    {
      var data1 := ReadSensor(RegCalibLow, 26, true, o1);
      if data1.Err? {
        return Err(data1.error);
      }
      tempPressTrim := Some(DecodeTempPress(data1.value));
      var data2 := ReadSensor(RegCalibHigh, 7, true, o2);
      if data2.Err? {
        return Err(data2.error);
      }
      humidityTrim := Some(DecodeHumidity(data2.value));
      r := Ok(true);
    }

    /**
     * One attempt of `_initHardware`, given the outcomes of its five
     * transactions: identity check, `ctrl_hum` then `ctrl_meas` written
     * with the lock bypassed, trimming values loaded.  Success clears
     * `sensor_fault` and releases the lock exactly once; failure leaves the
     * lock held and arms the retry timer.
     */
    method InitHardware(oId: BusRead, humOk: bool, measOk: bool, o1: BusRead, o2: BusRead) returns (ready: bool)
      requires Valid() && init == Running
      requires oId.Received? ==> |oId.bytes| == 1
      requires o1.Received? ==> |o1.bytes| == 26
      requires o2.Received? ==> |o2.bytes| == 7
      modifies this, mutex
      ensures Valid()
      ensures ready <==> ReachesInitDig(oId, humOk, measOk) && o1.Received? && o2.Received?
      ensures wire == old(wire) + InitTransactions(ctrlHum, ctrlMeas)[..Attempted(oId, humOk, measOk, o1)]
      ensures ready ==> !sensorFault && init == Idle && ReleasedOnce(mutex)
      ensures ready ==> tempPressTrim == Some(DecodeTempPress(o1.bytes)) && humidityTrim == Some(DecodeHumidity(o2.bytes))
      ensures !ready ==> init == RetryWait && unchanged(mutex)
      ensures !ready ==> sensorFault == (old(sensorFault) || InitReadFailed(oId, humOk, measOk, o1, o2))
      ensures !ready ==> tempPressTrim == (if ReachesInitDig(oId, humOk, measOk) && o1.Received?
                                           then Some(DecodeTempPress(o1.bytes)) else old(tempPressTrim))
      ensures !ready ==> humidityTrim == old(humidityTrim)
    {
      var configured := Configure(oId, humOk, measOk);
      if !configured {
        init := RetryWait;
        return false;
      }
      var dig := InitDig(o1, o2);
      assert wire == old(wire) + InitTransactions(ctrlHum, ctrlMeas)[..Attempted(oId, humOk, measOk, o1)] by {
        var t := InitTransactions(ctrlHum, ctrlMeas);
        assert t[..3] + [t[3]] == t[..4] && t[..4] + [t[4]] == t[..5];
      }
      if dig.Err? {
        init := RetryWait;
        return false;
      }
      Complete();
      ready := true;
    }

    /** The end of a successful attempt: `sensor_fault` is cleared and the lock released. */
    method Complete()
      requires Valid() && init == Running && tempPressTrim.Some? && humidityTrim.Some?
      modifies this, mutex
      ensures Valid()
      ensures !sensorFault && init == Idle && ReleasedOnce(mutex)
      ensures tempPressTrim == old(tempPressTrim) && humidityTrim == old(humidityTrim) && wire == old(wire)
    {
      sensorFault := false;
      var _ := mutex.Release();
      init := Idle;
    }

    /**
     * The first three steps of an attempt: the identity check, then
     * `ctrl_hum`, then `ctrl_meas`, each with the lock bypassed; the first
     * failure stops the attempt.
     */
    method Configure(oId: BusRead, humOk: bool, measOk: bool) returns (ok: bool)
      requires Valid() && init == Running
      requires oId.Received? ==> |oId.bytes| == 1
      modifies this
      ensures Valid()
      ensures ok <==> ReachesInitDig(oId, humOk, measOk)
      ensures wire == old(wire) + InitTransactions(ctrlHum, ctrlMeas)[..Configured(oId, humOk, measOk)]
      ensures sensorFault == (old(sensorFault) || oId.BusFault?)
      ensures init == old(init) && tempPressTrim == old(tempPressTrim) && humidityTrim == old(humidityTrim)
    {
      var t := InitTransactions(ctrlHum, ctrlMeas);
      assert t[..1] + [t[1]] == t[..2] && t[..2] + [t[2]] == t[..3];
      var id := CheckHwId(oId);
      if id.Err? {
        return false;
      }
      var hum := WriteSensor(RegCtrlHum, [ctrlHum], true, humOk);
      if hum.Err? {
        return false;
      }
      var meas := WriteSensor(RegCtrlMeas, [ctrlMeas], true, measOk);
      ok := meas.Ok?;
    }

    /**
     * The retry timer of a failed attempt fires: the sensor is marked
     * faulty and the next attempt starts; the lock stays held.
     */
    method RetryTimerFires()
      requires Valid() && init == RetryWait
      modifies this
      ensures Valid()
      ensures sensorFault && init == Running
      ensures tempPressTrim == old(tempPressTrim) && humidityTrim == old(humidityTrim) && wire == old(wire)
    {
      sensorFault := true;
      init := Running;
    }

    /**
     * `readSensorData` once its caller holds the lock: the 8-byte burst at
     * 0xF7, then the sentinel check and the temperature compensation with
     * the stored trimming values.
     */
    method ReadSensorData(outcome: BusRead) returns (r: Result<Reading>)
      requires Valid() && init == Idle && mutex.locked
      requires outcome.Received? ==> |outcome.bytes| == 8
      modifies this, mutex
      ensures Valid()
      ensures outcome.BusFault? ==> r == Err(BusError)
      ensures outcome.Received? ==> r == Measure(outcome.bytes, old(tempPressTrim).value)
      ensures wire == old(wire) + [ReadReg(RegData, 8)]
      ensures tempPressTrim == old(tempPressTrim) && humidityTrim == old(humidityTrim)
      ensures outcome.BusFault? ==> sensorFault && init == Running && unchanged(mutex)
      ensures outcome.Received? ==> !sensorFault && init == Idle && ReleasedOnce(mutex)
    {
      var data := ReadSensor(RegData, 8, false, outcome);
      if data.Err? {
        return Err(data.error);
      }
      r := Measure(data.value, tempPressTrim.value);
    }
  }

  /**
   * Recovery from a failed user read.  Reader 1 holds the lock and reader 2
   * queues behind it; reader 1's burst read fails, so the sensor is faulty
   * and the lock stays held by the bring-up chain reader 1 started; reader 3,
   * arriving meanwhile, is refused without queueing; the successful attempt
   * hands the lock to reader 2, whose read then releases it.
   */
  method FailedReadRecovery(calib1: seq<Byte>, calib2: seq<Byte>, burst: seq<Byte>) returns (d: Bme280, r1: Result<Reading>, a3: Admission, r2: Result<Reading>)
    requires |calib1| == 26 && |calib2| == 7 && |burst| == 8
    ensures r1 == Err(BusError) && a3 == Refused(NotReady)
    ensures r2 == Measure(burst, DecodeTempPress(calib1))
    ensures d.mutex.grants == [DriverWaiter, 1, 2] && !d.mutex.locked && !d.sensorFault
  {
    d, r1 := FailedReadKeepsLock(calib1, calib2);
    a3, r2 := RecoveryServesQueue(d, calib1, calib2, burst);
  }

  /**
   * First half: after bring-up, reader 1 holds the lock, reader 2 waits,
   * and reader 1's read fails.
   */
  method FailedReadKeepsLock(calib1: seq<Byte>, calib2: seq<Byte>) returns (d: Bme280, r1: Result<Reading>)
    requires |calib1| == 26 && |calib2| == 7
    ensures fresh(d) && fresh(d.mutex) && d.Valid()
    ensures r1 == Err(BusError)
    ensures d.sensorFault && d.init == Running && d.tempPressTrim == Some(DecodeTempPress(calib1))
    ensures d.mutex.locked && d.mutex.queue == [2] && d.mutex.grants == [DriverWaiter, 1]
  {
    d := BroughtUp(calib1, calib2);
    var a1 := d.RequestRead(1);
    var a2 := d.RequestRead(2);
    assert a1 == Holding && a2 == Waiting && d.mutex.queue == [2] && d.mutex.grants == [DriverWaiter, 1];
    r1 := d.ReadSensorData(BusFault);
  }

  /** A driver whose first bring-up attempt succeeded: idle, unlocked, trimming values loaded. */
  method BroughtUp(calib1: seq<Byte>, calib2: seq<Byte>) returns (d: Bme280)
    requires |calib1| == 26 && |calib2| == 7
    ensures fresh(d) && fresh(d.mutex) && d.Valid()
    ensures !d.sensorFault && d.init == Idle
    ensures d.tempPressTrim == Some(DecodeTempPress(calib1)) && d.humidityTrim == Some(DecodeHumidity(calib2))
    ensures !d.mutex.locked && d.mutex.queue == [] && d.mutex.grants == [DriverWaiter]
  {
    d := new Bme280();
    var ready := d.InitHardware(Received([ChipId]), true, true, Received(calib1), Received(calib2));
  }

  /**
   * Second half: reader 3 is refused while the sensor is faulty; the
   * successful attempt hands the lock to reader 2, whose read releases it.
   */
  method RecoveryServesQueue(d: Bme280, calib1: seq<Byte>, calib2: seq<Byte>, burst: seq<Byte>) returns (a3: Admission, r2: Result<Reading>)
    requires |calib1| == 26 && |calib2| == 7 && |burst| == 8
    requires d.Valid() && d.sensorFault && d.init == Running
    requires d.mutex.locked && d.mutex.queue == [2] && d.mutex.grants == [DriverWaiter, 1]
    modifies d, d.mutex
    ensures a3 == Refused(NotReady)
    ensures r2 == Measure(burst, DecodeTempPress(calib1))
    ensures d.mutex.grants == [DriverWaiter, 1, 2] && !d.mutex.locked && !d.sensorFault
  {
    a3 := d.RequestRead(3);
    var ready := d.InitHardware(Received([ChipId]), true, true, Received(calib1), Received(calib2));
    assert ready && d.mutex.locked && d.mutex.queue == [];
    assert d.mutex.grants == [DriverWaiter, 1, 2];
    r2 := d.ReadSensorData(Received(burst));
  }
}
