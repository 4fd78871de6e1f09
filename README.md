# bme280 driver — a verified Dafny model

A model of the Node.js driver for the Bosch BME280 temperature, pressure and
humidity sensor (`bme280.js`), covering:

- the FIFO `Mutex` that serializes bus transactions (`Serializer`);
- the oversampling table and the `ctrl_meas` / `ctrl_hum` control bytes
  (`Registers`, section 5.4 of the BME280 datasheet);
- the decoding of the two trimming-parameter blocks, including the H4/H5
  nibble packing of section 4.2.2 of the datasheet (`Calibration`);
- raw ADC extraction from the 8-byte burst, the "data not ready" sentinel
  check and the integer temperature compensation of section 4.2.3 of the
  datasheet (`Compensation`);
- the driver object's fault and lock state machine: `readSensor`,
  `writeSensor`, `_checkHWID`, `_initDig`, `_initHardware`, the retry timer
  and `readSensorData` (`Driver`).

Supporting modules:

- `JsNumber` gives JavaScript's 32-bit operators on unbounded integers.
  `ToInt32` wraps modulo 2^32 into the signed range. `<<` wraps the product.
  `>>` is a floor division of the wrapped value. `|` and `&` work on the
  two's-complement bits of the wrapped operands.
- `Bytes` gives Node's `Buffer` readers (`readInt8`, `readUInt16LE`,
  `readInt16LE`, `readUInt16BE`, `readUIntBE(_, 3)`) and the encoders the
  round-trip lemmas use.
- `Outcomes` holds `Option`, `Result` and the driver's error kinds.

Each bus transaction (open, write, settle delay, read, close) is one abstract
outcome passed in as a parameter. A `BusRead` is either the bytes received or
a fault; a write is a success flag.

The asynchronous methods are split at their `await` points into steps of the
class `Driver.Bme280`:

- a user `readSensor` is `RequestRead` (fault gate, then `lock()`), and then,
  once the lock is granted, `ReadSensor` or `ReadSensorData`;
- a user `writeSensor` is `RequestWrite` followed by `WriteSensor`;
- one run of `_initHardware` is `InitHardware`. When that attempt fails,
  `RetryTimerFires` models the 2-second timer firing and starting the next
  attempt.

The class invariant ties these steps together:

- a bring-up attempt in flight, or waiting to retry, holds the lock;
- `sensor_fault` is only ever set while such an attempt is pending;
- with no attempt pending, both trimming blocks have been loaded.

A ghost `wire` log records every register transaction in order. The mutex's
ghost `requests` and `grants` histories record every `lock()` caller and
every resolved promise.

Notes on the code's behaviour that the model keeps:

- `_initDig` stores the first block's fields before it reads the second
  block, so a failure of the second read leaves a partial update
  (bme280.js:125-141).
- Every transaction of a bring-up attempt bypasses the lock: all of them pass
  `on_init = true`. This holds for retries and for the attempts a failed user
  read starts, not only for the first acquisition.
- A failed user `readSensor` does not release the lock (bme280.js:211-217).
  The bring-up chain it starts inherits the lock, and only a successful
  attempt releases it (bme280.js:114). `writeSensor` releases on both paths
  (bme280.js:178).
- `writeSensor` has no fault gate, and a failed write never sets
  `sensor_fault`.
- A failed read inside an attempt sets `sensor_fault` at once
  (bme280.js:212). A wrong chip id or a failed control write sets it only
  when the retry timer fires (bme280.js:118).
- The driver stores dig_H5 with the sign-extension defect described under
  Findings (bme280.js:145). The stored humidity block uses the corrected H5;
  the code's own decoding is `Calibration.DecodeHumidityAsWritten`.

## Model

| member | source | states |
|---|---|---|
| Serializer.LockStep | bme280.js:46-55 | `lock()` grants the caller exactly when the mutex was free, and always leaves it locked. The old queue followed by the caller equals the immediate grant (when it was free) followed by the new queue. The invariant "waiters only while locked" is kept. |
| Serializer.ReleaseStep | bme280.js:57-64 | `release()` grants exactly the head of the queue, and nobody when the queue is empty. The old queue equals that grant followed by the new queue. The lock stays taken exactly when somebody was waiting. The invariant is kept. |
| Serializer.RunFifo | bme280.js:46-64 | Over any sequence of `lock()`/`release()` calls, the initial queue followed by the `lock()` callers, in call order, equals the grants in the order they happened followed by the final queue (FIFO fairness, nobody lost). |
| Serializer.RunExclusion | bme280.js:46-64 | Over any sequence of calls, the number of grants plus the holder at the start equals the number of releases of a held lock plus the holder at the end. A new holder appears only when the previous one releases (mutual exclusion). |
| Serializer.Drain | bme280.js:57-64 | From a held lock with n waiters, n releases serve every waiter in queue order and leave the lock held with an empty queue; one more release frees it (no starvation). |
| Serializer.Mutex.constructor | bme280.js:41-44 | A new mutex is unlocked with an empty queue and empty histories. |
| Serializer.Mutex.Lock | bme280.js:46-55 | Free: grants at once, sets `locked`, queue unchanged. Taken: appends the caller at the end of the queue, `locked` stays true. The request and grant histories are extended to match. Their relation (grants followed by queue equals requests) is kept. |
| Serializer.Mutex.Release | bme280.js:57-64 | With waiters: removes and grants exactly the oldest one, stays locked. Without: clears `locked`. The new state is `ReleaseStep` of the old one, so the FIFO invariant is kept. |
| Registers.OversamplingCode | bme280.js:31-38 | The table is defined exactly on 0, 1, 2, 4, 8, 16. It maps them to codes 0..5, and each code maps back to its factor. |
| Registers.OversamplingCodeOfFactor | bme280.js:31-38 | Every code 0..5 is the table's value for its own factor (the table is a bijection onto 0..5). |
| Registers.CtrlMeas | bme280.js:80 | `(osrs_t<<5)+(osrs_p<<2)+0b11` for 3-bit codes is a byte whose fields decode back: `>>5` gives osrs_t, `(>>2)&7` gives osrs_p, `&3` gives normal mode. |
| Registers.DriverControlBytes | bme280.js:72-81 | The driver's 8x settings give `ctrl_meas = 0x93` and `ctrl_hum = 4`; 1x settings would give 0x27. |
| JsNumber.ToInt32 | bme280.js:243-246 | The int32 wrap of the shift operators lands in [-2^31, 2^31). |
| JsNumber.ToInt32Wraps | bme280.js:243-246 | The wrapped value is congruent to its input modulo 2^32. |
| JsNumber.ToInt32Id | bme280.js:243-246 | A value already in [-2^31, 2^31) is left unchanged by the wrap. |
| JsNumber.Shl | bme280.js:144-145 | `x << k` is an int32. |
| JsNumber.ShlWraps | bme280.js:144-145 | `x << k` is congruent to `ToInt32(x)·2^k` modulo 2^32. |
| JsNumber.ShrFloor | bme280.js:243-246 | `x >> k` is the floor of `ToInt32(x)/2^k` (arithmetic shift): the largest r with r·2^k ≤ ToInt32(x). |
| JsNumber.ShrInRange | bme280.js:227-228 | For an int32 input, `x >> k` is exactly `x / 2^k`. |
| JsNumber.AndLowBits | bme280.js:144 | `x & (2^k-1)` keeps the low k bits of x, for negative x as well. |
| JsNumber.OrNibbleBelow | bme280.js:144-145 | OR-ing a 4-bit value into a number shifted left by 4 is addition. |
| JsNumber.OrNegativeNibble | bme280.js:145 | OR-ing a negative value in [-16, 0) into a number shifted left by 4 yields that negative value, whatever the high part. |
| Bytes.Int8 | bme280.js:144-146 | `readInt8` is the two's-complement value of the byte, in [-128, 128). |
| Bytes.ReadUInt16LE | bme280.js:126 | `readUInt16LE(i)` is in [0, 65536): low byte `d[i]`, high byte `d[i+1]`. |
| Bytes.ReadInt16LE | bme280.js:127 | `readInt16LE(i)` is in [-32768, 32768). |
| Bytes.ReadUInt16BE | bme280.js:229 | `readUInt16BE(i)` is in [0, 65536): high byte `d[i]`, low byte `d[i+1]`. |
| Bytes.ReadUInt24BE | bme280.js:227-228 | `readUIntBE(i, 3)` is in [0, 2^24) and its three bytes are `d[i]`, `d[i+1]`, `d[i+2]`, most significant first. |
| Calibration.DecodeTempPress | bme280.js:125-139 | T1 and P1 are unsigned 16-bit. T2, T3 and P2..P9 are signed 16-bit. H1 is byte 25. |
| Calibration.DecodeEncodeTempPress | bme280.js:125-139 | Every record of 16-bit fields and a byte H1 is recovered from its 26-byte little-endian image, whatever the skipped byte holds. |
| Calibration.EncodeDecodeTempPress | bme280.js:125-139 | Every 26-byte block is the image of its decoded fields plus its byte 24, so no byte other than 24 is lost. |
| Calibration.SkippedByteIgnored | bme280.js:138-139 | Changing byte 24 changes no field. |
| Calibration.H4 | bme280.js:144 | `readInt8(3)<<4 \| readInt8(4)&0xF` is `int8(b3)·16 + (b4 mod 16)`, a signed 12-bit value. |
| Calibration.H5AsWritten | bme280.js:145 | As written, `readInt8(5)<<4 \| readInt8(4)>>4` is `int8(b5)·16 + b4/16` when b4 < 0x80. For b4 ≥ 0x80 it is `b4/16 - 16`, whatever b5 is. |
| Calibration.H5 | bme280.js:145 | The datasheet's H5: `int8(b5)·16 + (b4 >> 4)` with b4 unsigned, a signed 12-bit value. |
| Calibration.H5AsWrittenAgreement | bme280.js:145 | The code's H5 equals the datasheet's exactly when b4 < 0x80 or b5 = 0xFF. |
| Calibration.H5SignExtensionExample | bme280.js:145 | Bytes b4 = 0x80, b5 = 0 give H5 = 8 by the datasheet and -8 as written. |
| Calibration.DecodeHumidity | bme280.js:141-146 | H2 is signed 16-bit. H3 is unsigned 8-bit. H4 and H5 are signed 12-bit. H6 is signed 8-bit. |
| Calibration.DecodeEncodeHumidity | bme280.js:141-146 | With the corrected H5, every humidity record in range is recovered from its 7-byte packed image. |
| Calibration.EncodeDecodeHumidity | bme280.js:141-146 | With the corrected H5, every 7-byte block is the packed image of its decoded fields: the nibble packing loses no bit. |
| Calibration.DecodeHumidityAsWritten | bme280.js:141-146 | The code's own decoding of the second block, with the sign-extending H5. Its fields are in range. It equals the corrected decoding exactly when b4 < 0x80 or b5 = 0xFF. |
| Calibration.AsWrittenLosesByte5 | bme280.js:145 | As written, when b4 ≥ 0x80 the decoded record does not depend on byte 5 at all. |
| Calibration.AsWrittenCollision | bme280.js:141-146 | The blocks `00 00 00 00 80 00 00` and `00 00 00 00 80 12 00` decode to the same record as written, but to different records with the corrected H5. |
| Compensation.ExtractRaw | bme280.js:227-229 | adc_P and adc_T are the 24-bit big-endian words at bytes 0 and 3, shifted right by 4, in [0, 2^20). adc_H is the 16-bit big-endian word at byte 6: high byte `d[6]`, low byte `d[7]`. |
| Compensation.ExtractEncodeRaw | bme280.js:227-229 | Every raw triple in range is recovered from its 8-byte burst image. |
| Compensation.EncodeExtractRaw | bme280.js:227-229 | A burst whose dropped low nibbles are zero is the image of its raw triple. |
| Compensation.SentinelBurst | bme280.js:227-239 | The burst `80 00 00 00 00 00 00 00` decodes to (524288, 0, 0). |
| Compensation.SentinelBytes | bme280.js:239 | The sentinel triple is extracted exactly from the bursts `80 00 0x 00 00 0y 00 00`, where x and y are any nibbles that the right shift drops. |
| Compensation.TFine | bme280.js:243-245 | t_fine from the two int32-wrapped shift terms stays within ±0x120000 for every input. |
| Compensation.TFineMatchesReference | bme280.js:243-245 | Without int32 wrap-around, t_fine equals the datasheet's formula over exact floor divisions. |
| Compensation.CentiCelsius | bme280.js:246 | `(t_fine*5+128)>>8` is 5·t_fine/256 rounded, half up, within ±23040 centi-degrees. |
| Compensation.Celsius | bme280.js:246 | The reported °C times 100 is the centi-degree value. |
| Compensation.TemperatureExample | bme280.js:243-246 | Bosch's worked sample, trimming (27504, 26435, -1000) with adc_T = 519888, give t_fine = 128422 and 25.08 °C. |
| Compensation.Measure | bme280.js:239-246 | `Err(DataNotReady)` exactly for the sentinel triple, before any compensation. Otherwise t_fine from adc_T and T1..T3, and the rounded temperature. |
| Compensation.TemperatureDependsOnTemperatureInputsOnly | bme280.js:241-246 | The temperature depends only on bytes 3..5 of the burst and on T1, T2, T3. |
| Driver.Bme280.constructor | bme280.js:69-104 | Control bytes from the table at 8x (0x93 and 4). No fault. The mutex is taken by the constructor's own `lock()`, with a bring-up attempt in flight and no trimming values yet. |
| Driver.Bme280.RequestRead | bme280.js:204-207 | Faulty sensor: refused with "not ready", mutex untouched, nothing on the bus. Otherwise exactly one `lock()`, granted at once or queued. |
| Driver.Bme280.RequestWrite | bme280.js:174 | No fault gate: exactly one `lock()`, granted at once or queued. |
| Driver.Bme280.ReadSensor | bme280.js:209-221 | One read on the wire; its bytes or a bus error. A failure sets `sensor_fault`. A failed user read starts bring-up and keeps the lock. A successful user read releases it once. `on_init` reads never touch the mutex. |
| Driver.Bme280.WriteSensor | bme280.js:176-182 | One write on the wire. `sensor_fault` is unchanged. A user write releases the lock exactly once, on success and on failure alike. `on_init` writes never touch the mutex. |
| Driver.Bme280.CheckHwId | bme280.js:150-156 | Succeeds exactly when the identity byte is 0x60. A wrong byte is a hardware-id error that leaves `sensor_fault` as it was. A failed read is a bus error that sets it. |
| Driver.Bme280.InitDig | bme280.js:124-149 | Reads 0xE1 only after 0x88 succeeded. Block 1 is stored as soon as it arrives, so a failure of the second read leaves a partial update. Block 2 is stored with the corrected H5. Succeeds exactly when both reads do. |
| Driver.Bme280.InitHardware | bme280.js:106-123 | The wire holds the attempt's transactions up to the first failure, in order. Ready exactly when all five succeed; then `sensor_fault` is cleared, both blocks are stored (block 2 with the corrected H5) and the lock is released exactly once. On failure the lock stays held and the retry is armed. |
| Driver.Bme280.Configure | bme280.js:108-110 | The identity check, then the `ctrl_hum` write, then the `ctrl_meas` write, each with the lock bypassed. The wire holds them up to the first failure. It goes on to `_initDig` exactly when all three succeed. Only a failed identity read sets `sensor_fault`. |
| Driver.Bme280.Complete | bme280.js:113-114 | After `_initDig` succeeds, `sensor_fault` is cleared and the lock is released exactly once; nothing else changes. |
| Driver.Bme280.RetryTimerFires | bme280.js:116-121 | The retry timer sets `sensor_fault` and starts the next attempt; the lock stays held. |
| Driver.Bme280.ReadSensorData | bme280.js:224-246 | One 8-byte burst read at 0xF7. A bus error faults the sensor and keeps the lock. Otherwise the lock is released and the reading is `Measure` of the burst with the stored trimming. |
| Driver.FailedReadRecovery | bme280.js:204-221 | A queued reader survives a failed read ahead of it. A reader arriving during the fault is refused. The recovered driver grants the lock in order 0, 1, 2, then ends unlocked and unfaulted, with the second reader's reading computed from the calibration. |
| Driver.BroughtUp | bme280.js:69-123 | A new driver whose first attempt succeeds is idle, unlocked and unfaulted, with both blocks decoded from the bytes read (block 2 with the corrected H5) and exactly one grant (the constructor's own `lock()`). |
| Driver.FailedReadKeepsLock | bme280.js:204-221 | Reader 1 holds the lock and reader 2 queues. Reader 1's burst read fails with a bus error. The sensor is then faulty, a bring-up attempt is in flight, and the lock stays held with reader 2 still queued. |
| Driver.RecoveryServesQueue | bme280.js:106-123 | While faulty, reader 3 is refused without queueing. The next successful attempt hands the lock to reader 2. Reader 2's read measures with the reloaded trimming values and frees the lock. |

## Left out

- The I²C transport (`i2c.open`, `i2cWrite`, `i2cRead`, `close`) and the `async.series` chaining (bme280.js:157-202). Each transaction is one abstract outcome.
- The settle delays (50 ms, 20 ms) and the 2-second retry delay. The retry is the event `RetryTimerFires`, not time.
- Interleaving of promises. Each step of an asynchronous method runs atomically when its promise settles. A caller decides the order of the steps.
- Driver.Bme280.InitHardware: models one whole attempt as one step. Steps of users cannot run during the attempt except `RequestRead` and `RequestWrite`, which only queue or are refused. During the attempt, `sensor_fault` changes at most once, at its end. So a `RequestRead` placed before or after the step sees every value the code can show it. Not modelled: an `on_init` transaction issued from outside the attempt (`resetSensor`) that interleaves with it.
- The pressure and humidity pipelines (bme280.js:248-271). They are JavaScript double-precision floating point, including the `pvar1 !== 0` guard and the humidity clamp. The clamp lets NaN through, so no [0, 100] bound is claimed.
- Compensation.Celsius: the reported temperature is held as an exact real. JavaScript divides the centi-degree integer by 100 in double precision.
- `meas_time` (bme280.js:83-85). It is floating point and never used.
- Logging (bme280.js:93-100, 115, 119).
- `readTemperature`, `readPressure`, `readHumidity` (bme280.js:278-289). They select one field of `readSensorData`'s result.
- `getAbilities` (bme280.js:291-293). It returns a constant.
- The helpers `resetSensor`, `readCtrlMeas`, `readStatus`, `readConfig`, `readHWID`, `readDig` (bme280.js:297-324). Each is one `readSensor` or `writeSensor` call, which the model covers, plus console output.
- Calibration.DecodeHumidity: uses the datasheet's H5 rather than the code's sign-extending expression. The code as written is `Calibration.DecodeHumidityAsWritten`, built on `Calibration.H5AsWritten`; see Findings.
- DecodeEncodeHumidity: holds of the corrected decoding only. As written, a record with b4 ≥ 0x80 packed in it, such as h5 = 8, comes back with a different h5 (`Calibration.AsWrittenCollision`).
- EncodeDecodeHumidity: holds of the corrected decoding only. As written, byte 5 is lost whenever b4 ≥ 0x80 (`Calibration.AsWrittenLosesByte5`).
- InitDig: stores `DecodeHumidity`, the corrected decoding, where the code stores dig_H5 computed by the sign-extending expression. The two differ exactly when b4 ≥ 0x80 and b5 ≠ 0xFF (`DecodeHumidityAsWritten`'s contract).
- InitHardware: the humidity block it promises on success is the corrected decoding, for the same reason as InitDig.
- BroughtUp: the humidity block it promises is the corrected decoding, for the same reason as InitDig.

## Findings

| source | as written | input that shows it | evidently intended | confidence | as-written member | corrected member |
|---|---|---|---|---|---|---|
| bme280.js:145 | `(readInt8(5) << 4) \| (readInt8(4) >> 4)` reads byte 4 as signed. For b4 ≥ 0x80 the right operand is negative, and the OR turns every high bit on. | b4 = 0x80, b5 = 0x00 gives -8 | `int8(b5)·16 + (b4 >> 4)` with b4 unsigned, which gives 8 (section 4.2.2 of the BME280 datasheet) | high; not executed | Calibration.H5AsWritten, Calibration.H5SignExtensionExample, Calibration.DecodeHumidityAsWritten, Calibration.AsWrittenCollision | Calibration.H5, Calibration.DecodeHumidity |
