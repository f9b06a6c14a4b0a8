/** The alarm conditions a device can report: the key tables of server/src/protocol/location.js and tt-elock.js and
    the conditions server/src/services/telemetry-service.js derives from lock status and voltage. */
module AlarmKeys {
  import opened Bytes

  /** ALARM_FLAG_BITS (Table 24); a bit without an entry is named after its number. */
  function FlagKey(bit: nat): string
    requires bit < 32
  {
    if bit == 0 then "emergency" else if bit == 1 then "overspeed" else if bit == 2 then "fatigue_driving"
    else if bit == 3 then "danger_warning" else if bit == 4 then "gnss_module_failure"
    else if bit == 5 then "gnss_antenna_disconnected" else if bit == 6 then "gnss_antenna_short"
    else if bit == 7 then "main_power_undervoltage" else if bit == 8 then "main_power_off"
    else if bit == 9 then "display_failure" else if bit == 10 then "tts_failure" else if bit == 11 then "camera_failure"
    else if bit == 12 then "ic_card_module_failure" else if bit == 13 then "overspeed_warning"
    else if bit == 14 then "fatigue_warning" else if bit < 18 then "reserved_bit_" + Decimal(bit)
    else if bit == 18 then "daily_driving_overtime" else if bit == 19 then "overtime_parking"
    else if bit == 20 then "area_in_out" else if bit == 21 then "route_in_out"
      else if bit == 22 then "road_segment_time"
    else if bit == 23 then "route_deviation" else if bit == 24 then "vss_failure" else if bit == 25 then "fuel_abnormal"
    else if bit == 26 then "vehicle_stolen" else if bit == 27 then "illegal_ignition"
    else if bit == 28 then "illegal_displacement" else if bit == 29 then "collision_warning"
    else if bit == 30 then "rollover_warning" else "illegal_door_open"
  }

  /** E7_ALARM_BITS; bits 9 to 23 are reserved. */
  function E7Key(bit: nat): string
    requires bit < 24
  {
    if bit == 0 then "cable_cut" else if bit == 1 then "emergency_unlock" else if bit == 2 then "removal"
    else if bit == 3 then "cover_open" else if bit == 4 then "vibration" else if bit == 5 then "tilt"
    else if bit == 6 then "rollover" else if bit == 7 then "high_temperature" else if bit == 8 then "low_temperature"
    else "alarm_" + Decimal(bit)
  }

  /** LOCK_STATUS_ALARM_BITS (Appendix 3). */
  function LockBitKey(bit: nat): string
    requires bit < 4
  {
    if bit == 0 then "lock_rod_cut" else if bit == 1 then "opened" else if bit == 2 then "shell_removed"
      else "knob_damaged"
  }

  // ---------- the tables are injective ----------

  /** Recovers the bit from its key by length and a few telling characters. */
  function FlagBit(key: string): nat
    requires |key| >= 9
  {
    var n, first, last := |key|, key[0], key[|key| - 1];
    if n == 9 then (if first == 'e' then 0 else 1)
    else if n == 11 then (if first == 't' then 10 else if first == 'a' then 20 else 24)
    else if n == 12 then 21
    else if n == 13 then 25
    else if n == 14 then (if first == 'd' then 3 else if first == 'm' then 8 else if first == 'c' then 11 else 26)
    else if n == 15 then
      (if first == 'd' then 9
       else if first == 'f' then (if key[8] == 'd' then 2 else 14)
       else if last == '5' then 15 else if last == '6' then 16 else if last == '7' then 17 else 23)
    else if n == 16 then (if first == 'o' then 19 else if first == 'i' then 27 else 30)
    else if n == 17 then (if first == 'o' then 13 else if first == 'r' then 22 else if first == 'c' then 29 else 31)
    else if n == 18 then 6 else if n == 19 then 4 else if n == 20 then 28
    else if n == 22 then (if first == 'i' then 12 else 18)
    else if n == 23 then 7 else 5
  }

  lemma TwoDigitText(bit: nat)
    requires 10 <= bit < 100
    ensures Decimal(bit) == [DigitChar(bit / 10), DigitChar(bit % 10)]
  {
  }

  lemma FlagBitOfKey(bit: nat)
    requires bit < 32
    ensures |FlagKey(bit)| >= 9 && FlagBit(FlagKey(bit)) == bit
  {
    if 15 <= bit < 18 {
      TwoDigitText(bit);
    }
  }

  function E7Bit(key: string): nat
    requires |key| >= 4
  {
    var n, first, last := |key|, key[0], key[|key| - 1];
    if n == 4 || n == 5 then 5
    else if first == 'a' && n == 7 then 9
    else if first == 'a' && n == 8 then 10 * DigitOr(key[6]) + DigitOr(last)
    else if n == 7 then 2
    else if n == 8 then 6
    else if n == 9 then (if first == 'c' then 0 else 4)
    else if n == 10 then 3
    else if n == 15 then 8
    else if first == 'e' then 1 else 7
  }

  function DigitOr(c: char): nat
  {
    if IsDigit(c) then DigitValue(c) else 0
  }

  lemma E7BitOfKey(bit: nat)
    requires bit < 24
    ensures |E7Key(bit)| >= 4 && E7Bit(E7Key(bit)) == bit
  {
    if bit >= 10 {
      TwoDigitText(bit);
    }
  }

  /** Different bits of one status word are different alarms. */
  lemma KeysInjective(a: nat, b: nat)
    ensures a < 32 && b < 32 && FlagKey(a) == FlagKey(b) ==> a == b
    ensures a < 24 && b < 24 && E7Key(a) == E7Key(b) ==> a == b
    ensures a < 4 && b < 4 && LockBitKey(a) == LockBitKey(b) ==> a == b
  {
    if a < 32 && b < 32 {
      FlagBitOfKey(a);
      FlagBitOfKey(b);
    }
    if a < 24 && b < 24 {
      E7BitOfKey(a);
      E7BitOfKey(b);
    }
    LockKeyLengths();
  }

  lemma LockKeyLengths()
    ensures |LockBitKey(0)| == 12 && |LockBitKey(1)| == 6 && |LockBitKey(2)| == 13
    ensures |LockBitKey(3)| == 12 && LockBitKey(0)[0] == 'l' && LockBitKey(3)[0] == 'k'
  {
  }
}
