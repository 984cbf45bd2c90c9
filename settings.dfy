/**
 * The two configuration rules of `loadProperties` that do more than copy a value:
 * normalising `bind-mode` to one of the codes t, r, tr, and converting
 * `receive-timeout` between the file's seconds (-1 meaning blocking) and the
 * library's milliseconds (its own constant meaning blocking, a parameter here).
 */
module Settings {
  import opened Wrappers
  import opened JavaLang

  /** The configuration values these rules read, already parsed; None where the key is absent. */
  datatype Properties = Properties(bindMode: Option<string>, receiveTimeout: Option<Int32>)

  /** The initial value of the field `bindOption`. */
  const DEFAULT_BIND_OPTION: string := "t"

  /** The configuration file's value for a blocking receive. */
  const BLOCKING_SECONDS: Int32 := -1

  /** One of the three codes t, r, tr, in any case. */
  predicate IsBindCode(mode: string) {
    EqualsIgnoreCase(mode, "t") || EqualsIgnoreCase(mode, "r") || EqualsIgnoreCase(mode, "tr")
  }

  /** The values `loadProperties` accepts without printing that `bind-mode` is wrong. */
  predicate BindModeRecognised(mode: string) {
    || EqualsIgnoreCase(mode, "transmitter") || EqualsIgnoreCase(mode, "receiver")
    || EqualsIgnoreCase(mode, "transciever") || IsBindCode(mode)
  }

  /**
   * The `bind-mode` rule: the long names (with the spelling "transciever") become
   * their codes, a code is kept as written, and anything else becomes "t".
   */
  function NormaliseBindMode(mode: string): (r: string)
    ensures IsBindCode(r)
    ensures IsBindCode(mode) ==> r == mode
    ensures !BindModeRecognised(mode) ==> r == "t"
  {
    if EqualsIgnoreCase(mode, "transmitter") then "t"
    else if EqualsIgnoreCase(mode, "receiver") then "r"
    else if EqualsIgnoreCase(mode, "transciever") then "tr"
    else if !IsBindCode(mode) then "t"
    else mode
  }

  /** The value `loadProperties` gives `bindOption`: the property, or the current value when absent, normalised. */
  function BindOptionSetting(property: Option<string>, current: string): (r: string)
    ensures IsBindCode(r)
    ensures property.Some? ==> r == NormaliseBindMode(property.value)
    ensures property.None? && IsBindCode(current) ==> r == current
  {
    NormaliseBindMode(property.GetOr(current))
  }

  /** Normalising twice is normalising once. */
  lemma BindModeIdempotent(mode: string)
    ensures NormaliseBindMode(NormaliseBindMode(mode)) == NormaliseBindMode(mode)
  {
  }

  /**
   * Which inputs give the lower-case codes tr and r: the long name in any case, or
   * the code itself exactly; every other input gives t or keeps its own case of a code.
   */
  lemma BindModeCodes(mode: string)
    ensures NormaliseBindMode(mode) == "tr" <==> EqualsIgnoreCase(mode, "transciever") || mode == "tr"
    ensures NormaliseBindMode(mode) == "r" <==> EqualsIgnoreCase(mode, "receiver") || mode == "r"
    ensures NormaliseBindMode(mode) == "t" <==>
      EqualsIgnoreCase(mode, "transmitter") || mode == "t" ||
      !(IsBindCode(mode) || EqualsIgnoreCase(mode, "receiver") || EqualsIgnoreCase(mode, "transciever"))
  {
    var r := NormaliseBindMode(mode);
    if EqualsIgnoreCase(mode, "transciever") {
      assert LowerAscii(mode[5]) == LowerAscii("transciever"[5]) == 'c';
      assert !EqualsIgnoreCase(mode, "transmitter") by {
        assert LowerAscii("transmitter"[5]) == 'm';
      }
    }
    if r == "tr" && !EqualsIgnoreCase(mode, "transciever") {
      assert |mode| != |"transmitter"| && |mode| != |"receiver"|;
    }
    if r == "r" && !EqualsIgnoreCase(mode, "receiver") {
      assert |mode| != |"transmitter"| && |mode| != |"transciever"|;
    }
    if r == "t" && !EqualsIgnoreCase(mode, "transmitter") && IsBindCode(mode) {
      assert |mode| != |"receiver"| && |mode| != |"transciever"|;
    }
  }

  /** The usual spelling "transceiver" is not recognised and falls back to transmitter. */
  lemma TransceiverSpellingFallsBack()
    ensures NormaliseBindMode("transceiver") == "t"
    ensures NormaliseBindMode("TransCiever") == "tr"
  {
    var spelled, coded, capital := "transceiver", "transciever", "TransCiever";
    assert !EqualsIgnoreCase(spelled, coded) by {
      assert LowerAscii(spelled[6]) == 'e' && LowerAscii(coded[6]) == 'i';
    }
    assert !EqualsIgnoreCase(spelled, "transmitter") by {
      assert LowerAscii(spelled[5]) == 'c' && LowerAscii("transmitter"[5]) == 'm';
    }
    assert !EqualsIgnoreCase(capital, "transmitter") by {
      assert LowerAscii(capital[5]) == 'c' && LowerAscii("transmitter"[5]) == 'm';
    }
    assert EqualsIgnoreCase(capital, coded) by {
      forall i | 0 <= i < |capital| ensures LowerAscii(capital[i]) == LowerAscii(coded[i]) {
      }
    }
    assert !IsBindCode(spelled) && !EqualsIgnoreCase(spelled, "receiver");
  }

  /** The current timeout in the file's units: -1 for blocking, else `(int) receiveTimeout / 1000`. */
  function SecondsFromTimeout(current: int, blocking: int): (secs: Int32)
    ensures current != blocking && INT_MIN <= current <= INT_MAX && current % 1000 == 0 ==> secs * 1000 == current
  {
    if current == blocking then BLOCKING_SECONDS
    else
      var q := JavaDiv(Wrap32(current), 1000);
      assert INT_MIN <= q <= INT_MAX;
      q
  }

  /** A timeout in the file's seconds as the library's value: `blocking` for -1, else `rcvTimeout * 1000` in `int` arithmetic. */
  function TimeoutFromSeconds(secs: Int32, blocking: int): (t: int)
    ensures secs == BLOCKING_SECONDS ==> t == blocking
    ensures secs != BLOCKING_SECONDS ==> INT_MIN <= t <= INT_MAX
    ensures secs != BLOCKING_SECONDS ==> (t - secs * 1000) % 0x1_0000_0000 == 0
    ensures secs != BLOCKING_SECONDS && -2147483 <= secs <= 2147483 ==> t == secs * 1000
  {
    if secs == BLOCKING_SECONDS then blocking else Wrap32(secs * 1000)
  }

  /** The value `loadProperties` gives `receiveTimeout`: the property, or the current value converted to seconds, back in milliseconds. */
  function ReceiveTimeoutSetting(property: Option<Int32>, current: int, blocking: int): (t: int)
    ensures property == Some(BLOCKING_SECONDS) ==> t == blocking
    ensures property.Some? && property.value != BLOCKING_SECONDS && -2147483 <= property.value <= 2147483 ==>
      t == property.value * 1000
    ensures property.None? && current == blocking ==> t == blocking
  {
    TimeoutFromSeconds(property.GetOr(SecondsFromTimeout(current, blocking)), blocking)
  }

  /** A configured -1 means blocking. */
  lemma ConfiguredBlocking(current: int, blocking: int)
    ensures ReceiveTimeoutSetting(Some(BLOCKING_SECONDS), current, blocking) == blocking
  {
  }

  /** A configured number of seconds other than -1 becomes that many milliseconds, as long as the product fits in an `int`. */
  lemma ConfiguredSeconds(n: Int32, current: int, blocking: int)
    requires n != BLOCKING_SECONDS && -2147483 <= n <= 2147483
    ensures ReceiveTimeoutSetting(Some(n), current, blocking) == n * 1000
  {
  }

  /**
   * From 2147484 to 4294967 seconds the `int` multiplication wraps past the top
   * and the timeout turns negative; larger values wrap modulo 2^32 again.
   */
  lemma ConfiguredSecondsOverflow(n: Int32, current: int, blocking: int)
    requires 2147484 <= n <= 4294967
    ensures ReceiveTimeoutSetting(Some(n), current, blocking) == n * 1000 - 0x1_0000_0000 < 0
  {
    var x := n * 1000;
    assert 0x1_0000_0000 <= x - INT_MIN < 2 * 0x1_0000_0000;
    assert (x - INT_MIN) % 0x1_0000_0000 == x - INT_MIN - 0x1_0000_0000;
  }

  /**
   * With the property absent, a blocking timeout stays blocking and a whole number
   * of seconds that fits in an `int` stays as it is, except -1000 ms (next lemma).
   */
  lemma AbsentKeepsTimeout(current: int, blocking: int)
    requires current == blocking || (INT_MIN <= current <= INT_MAX && current % 1000 == 0 && current != -1000)
    ensures ReceiveTimeoutSetting(None, current, blocking) == current
  {
    if current != blocking {
      var secs := SecondsFromTimeout(current, blocking);
      assert secs * 1000 == current;
      assert secs != BLOCKING_SECONDS;
    }
  }

  /**
   * With the property absent, a non-blocking timeout from -1999 to -1000 ms reads
   * as -1 second and becomes blocking. The program never meets this case: the
   * constructor is the only caller and the timeout is still blocking then.
   */
  lemma AbsentMinusOneSecondBlocks(current: int, blocking: int)
    requires current != blocking && -1999 <= current <= -1000
    ensures ReceiveTimeoutSetting(None, current, blocking) == blocking
  {
    assert SecondsFromTimeout(current, blocking) == -1;
  }

  /**
   * Seconds survive the trip to milliseconds and back, when the product fits in an
   * `int` and is not the library's blocking value.
   */
  lemma SecondsRoundTrip(n: Int32, blocking: int)
    requires -2147483 <= n <= 2147483
    requires n != BLOCKING_SECONDS ==> n * 1000 != blocking
    ensures SecondsFromTimeout(TimeoutFromSeconds(n, blocking), blocking) == n
  {
    if n != BLOCKING_SECONDS {
      var t := n * 1000;
      assert TimeoutFromSeconds(n, blocking) == t;
      assert t % 1000 == 0;
    }
  }
}
