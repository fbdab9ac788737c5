/**
 * The TCA9555 16-bit I2C port expander driver: string encoding of register
 * contents, bit-index validation, per-port reads and writes with the pin order
 * reversed against the byte's bit order, diff-only state writes, selective bit
 * updates and packing integers into arbitrary pins.
 *
 * The I2C transport is replaced by a map from register address to byte held in
 * the driver object; every byte written is also appended to a write log, so
 * that "performs no writes" can be stated.
 */
module Tca9555Device {
  import opened Wrappers
  import opened NumPy
  import opened Common

  newtype Byte = b: int | 0 <= b < 256

  /** The exceptions the driver raises, named after their cause. */
  datatype TcaError =
    | UnknownRegister   // ValueError: register name not in regs
    | PortOutOfRange    // IndexError: port other than 0 or 1
    | BitOutOfRange     // IndexError: bit index outside the 16 pins, or past the state string
    | DuplicateBits     // IndexError: a bit index listed twice
    | TooLittleBits     // ValueError: value wider than the number of bits given
    | NotABitValue      // ValueError: level other than 0 or 1
    | WrongLength       // ValueError: state does not have the requested number of bits
    | NotADigit         // ValueError: int() of a character that is not a decimal digit
    | EmptyBits         // ValueError: int('', 2)

  const IoBits: nat := 16
  const BitsPerPort: nat := 8
  const Ports: nat := 2

  // ---------------------------------------------------------------------
  // Registers
  // ---------------------------------------------------------------------

  /** The four registers of the chip, each one byte per port. */
  datatype Register = Input | Output | Polarity | Config

  /** regs lookup: the register a name denotes. */
  function RegisterNamed(name: string): Option<Register>
  {
    if name == "input" then Some(Input)
    else if name == "output" then Some(Output)
    else if name == "polarity" then Some(Polarity)
    else if name == "config" then Some(Config)
    else None
  }

  /** regs: the addresses of a register's (port 0, port 1) bytes. */
  function PortAddresses(r: Register): (nat, nat)
  {
    match r
    case Input => (0x00, 0x01)
    case Output => (0x02, 0x03)
    case Polarity => (0x04, 0x05)
    case Config => (0x06, 0x07)
  }

  /** _check_register: only the four register names exist. */
  function CheckRegister(name: string): (r: Outcome<TcaError>)
    ensures r.Fail? ==> r.error == UnknownRegister
  {
    if RegisterNamed(name).None? then Fail(UnknownRegister) else Pass
  }

  lemma KnownRegisters(name: string)
    ensures CheckRegister(name).Pass? <==> name in ["input", "output", "polarity", "config"]
  {
  }

  predicate IsPort(port: int) { port == 0 || port == 1 }

  function PortAddress(r: Register, port: nat): (a: nat)
    requires port < Ports
    ensures a < 8
  {
    if port == 0 then PortAddresses(r).0 else PortAddresses(r).1
  }

  /** Each of the eight addresses belongs to exactly one register port. */
  lemma AddressesDistinct(r1: Register, port1: nat, r2: Register, port2: nat)
    requires port1 < Ports && port2 < Ports
    ensures PortAddress(r1, port1) == PortAddress(r2, port2) <==> r1 == r2 && port1 == port2
  {
  }

  // ---------------------------------------------------------------------
  // Bit strings
  // ---------------------------------------------------------------------

  predicate IsBitString(s: string)
  {
    forall k :: 0 <= k < |s| ==> s[k] == '0' || s[k] == '1'
  }

  function BitChar(b: nat): char
    requires b < 2
  {
    if b == 1 then '1' else '0'
  }

  function Pow2(n: nat): (r: nat)
    ensures r >= 1
  {
    if n == 0 then 1 else 2 * Pow2(n - 1)
  }

  /** Bit k of v (v >> k & 1). */
  function BitOf(v: nat, k: nat): (r: nat)
    ensures r < 2
  {
    if k == 0 then v % 2 else BitOf(v / 2, k - 1)
  }

  /** format(v, 'b'): the shortest binary numeral of v, most significant bit first. */
  function Binary(v: nat): (r: string)
    ensures |r| >= 1 && IsBitString(r)
    decreases v
  {
    if v < 2 then [BitChar(v)] else Binary(v / 2) + [BitChar(v % 2)]
  }

  function Zeros(n: nat): (r: string)
    ensures |r| == n && IsBitString(r)
  {
    seq(n, _ => '0')
  }

  /** Left padding with '0' to at least n characters. */
  function PadLeft(s: string, n: nat): (r: string)
    ensures |r| == if |s| < n then n else |s|
    ensures IsBitString(s) ==> IsBitString(r)
  {
    if |s| < n then Zeros(n - |s|) + s else s
  }

  /** int(s, 2) on a non-empty bit string, most significant bit first. */
  function BinValue(s: string): nat
  {
    if |s| == 0 then 0 else 2 * BinValue(s[..|s| - 1]) + (if s[|s| - 1] == '1' then 1 else 0)
  }

  /** The n low bits of v, most significant first. */
  function FixedBits(v: nat, n: nat): (r: string)
    ensures |r| == n && IsBitString(r)
  {
    if n == 0 then [] else FixedBits(v / 2, n - 1) + [BitChar(v % 2)]
  }

  lemma {:induction false} BinValueBound(s: string)
    ensures BinValue(s) < Pow2(|s|)
  {
    if |s| > 0 {
      BinValueBound(s[..|s| - 1]);
    }
  }

  /** Reading back n fixed-width bits gives the value, when it fits. */
  lemma {:induction false} FixedBitsValue(v: nat, n: nat)
    requires v < Pow2(n)
    ensures BinValue(FixedBits(v, n)) == v
  {
    if n > 0 {
      FixedBitsValue(v / 2, n - 1);
      assert FixedBits(v, n)[..n - 1] == FixedBits(v / 2, n - 1);
    }
  }

  /** Writing the value of a bit string back at its own width gives the string. */
  lemma {:induction false} ValueFixedBits(s: string)
    requires IsBitString(s)
    ensures FixedBits(BinValue(s), |s|) == s
  {
    if |s| > 0 {
      var init := s[..|s| - 1];
      ValueFixedBits(init);
      assert s == init + [s[|s| - 1]];
    }
  }

  /** Character n-1-k of the fixed-width numeral is bit k of v. */
  lemma {:induction false} FixedBitsDigit(v: nat, n: nat, k: nat)
    requires k < n
    ensures FixedBits(v, n)[n - 1 - k] == BitChar(BitOf(v, k))
  {
    if k > 0 {
      FixedBitsDigit(v / 2, n - 1, k - 1);
    }
  }

  lemma {:induction false} FixedBitsZero(n: nat)
    ensures FixedBits(0, n) == Zeros(n)
  {
    if n > 0 {
      FixedBitsZero(n - 1);
    }
  }

  /** format(v, 'b') fits in n >= 1 characters exactly when v < 2^n. */
  lemma {:induction false} BinaryWidth(v: nat, n: nat)
    requires n >= 1
    ensures |Binary(v)| <= n <==> v < Pow2(n)
    decreases v
  {
    if v >= 2 && n >= 2 {
      BinaryWidth(v / 2, n - 1);
    }
  }

  /** format(v, '0nb') is the n-bit numeral of v, when v fits in n bits. */
  lemma {:induction false} PaddedBinary(v: nat, n: nat)
    requires n >= 1 && v < Pow2(n)
    ensures PadLeft(Binary(v), n) == FixedBits(v, n)
    decreases v
  {
    if v < 2 {
      FixedBitsZero(n - 1);
    } else {
      BinaryWidth(v / 2, n - 1);
      PaddedBinary(v / 2, n - 1);
      assert PadLeft(Binary(v), n) == PadLeft(Binary(v / 2), n - 1) + [BitChar(v % 2)];
    }
  }

  // ---------------------------------------------------------------------
  // _create_state
  // ---------------------------------------------------------------------

  /** The forms a state may be given in: an int, an iterable of ints, or a string. */
  datatype StateRepr = Number(number: nat) | Items(items: seq<nat>) | Text(chars: string)

  /** The iterable branch: f'{int(i):1b}' of every item, concatenated. */
  function ItemsBits(xs: seq<nat>): (r: string)
    ensures IsBitString(r)
  {
    if |xs| == 0 then "" else ItemsBits(xs[..|xs| - 1]) + Binary(xs[|xs| - 1])
  }

  predicate AllDigits(cs: string)
  {
    forall k :: 0 <= k < |cs| ==> IsDigit(cs[k])
  }

  /** int(c) of every character of a string of decimal digits. */
  function Digits(cs: string): (r: seq<nat>)
    requires AllDigits(cs)
    ensures |r| == |cs|
  {
    seq(|cs|, k requires 0 <= k < |cs| => (cs[k] as int - '0' as int) as nat)
  }

  /** The string before the final length check. */
  function RawState(repr: StateRepr, n: nat): (r: Result<string, TcaError>)
    ensures r.Success? ==> IsBitString(r.value)
  {
    match repr
    case Number(v) => Success(PadLeft(Binary(v), n))
    case Items(xs) => Success(PadLeft(ItemsBits(xs), n))
    case Text(cs) =>
      if AllDigits(cs) then Success(PadLeft(ItemsBits(Digits(cs)), n)) else Failure(NotADigit)
  }

  /** _create_state(repr, n): n characters of '0' and '1', or the ValueError raised. */
  function StateString(repr: StateRepr, n: nat): (r: Result<string, TcaError>)
    ensures r.Success? ==> |r.value| == n && IsBitString(r.value)
  {
    var raw :- RawState(repr, n);
    if |raw| != n then Failure(WrongLength) else Success(raw)
  }

  /** An int becomes its n-bit numeral, and is refused exactly when it needs more than n bits. */
  lemma NumberState(v: nat, n: nat)
    ensures StateString(Number(v), n).Success? <==> n >= 1 && v < Pow2(n)
    ensures StateString(Number(v), n).Failure? ==> StateString(Number(v), n).error == WrongLength
    ensures StateString(Number(v), n).Success? ==>
              StateString(Number(v), n).value == FixedBits(v, n) &&
              BinValue(StateString(Number(v), n).value) == v
  {
    if n >= 1 {
      BinaryWidth(v, n);
      if v < Pow2(n) {
        PaddedBinary(v, n);
        FixedBitsValue(v, n);
      }
    }
  }

  function BitChars(xs: seq<nat>): (r: string)
    requires forall k :: 0 <= k < |xs| ==> xs[k] < 2
    ensures |r| == |xs|
  {
    seq(|xs|, k requires 0 <= k < |xs| => BitChar(xs[k]))
  }

  lemma {:induction false} BitItemsBits(xs: seq<nat>)
    requires forall k :: 0 <= k < |xs| ==> xs[k] < 2
    ensures ItemsBits(xs) == BitChars(xs)
  {
    if |xs| > 0 {
      BitItemsBits(xs[..|xs| - 1]);
      assert BitChars(xs) == BitChars(xs[..|xs| - 1]) + [BitChar(xs[|xs| - 1])];
    }
  }

  /** An iterable of 0s and 1s gives one character per item, left-padded with '0'. */
  lemma ItemsState(xs: seq<nat>, n: nat)
    requires forall k :: 0 <= k < |xs| ==> xs[k] < 2
    ensures StateString(Items(xs), n).Success? <==> |xs| <= n
    ensures StateString(Items(xs), n).Failure? ==> StateString(Items(xs), n).error == WrongLength
    ensures |xs| <= n ==> StateString(Items(xs), n).value == Zeros(n - |xs|) + BitChars(xs)
  {
    BitItemsBits(xs);
  }

  /** A string of n '0'/'1' characters is its own state. */
  lemma TextState(s: string)
    requires IsBitString(s)
    ensures StateString(Text(s), |s|) == Success(s)
  {
    var xs := Digits(s);
    assert forall k :: 0 <= k < |xs| ==> xs[k] < 2 && BitChar(xs[k]) == s[k];
    BitItemsBits(xs);
    assert BitChars(xs) == s;
  }

  /** A string holding a character that is not a digit is refused. */
  lemma TextNotDigits(cs: string, n: nat)
    requires !AllDigits(cs)
    ensures StateString(Text(cs), n) == Failure(NotADigit)
  {
  }

  // ---------------------------------------------------------------------
  // _check_bits
  // ---------------------------------------------------------------------

  /** A bit argument: one index, or an iterable of indices. */
  datatype BitsArg = One(index: int) | Many(indices: seq<int>)

  function AsList(bits: BitsArg): seq<int>
  {
    match bits
    case One(b) => [b]
    case Many(bs) => bs
  }

  predicate InRange(bs: seq<int>)
  {
    forall k :: 0 <= k < |bs| ==> 0 <= bs[k] < IoBits
  }

  /** len(set(bits)) == len(bits). */
  predicate Distinct(bs: seq<int>)
  {
    forall i, j :: 0 <= i < j < |bs| ==> bs[i] != bs[j]
  }

  function IntAbs(v: int): nat { if v < 0 then -v else v }

  /** int.bit_length(): the number of bits of |v|, 0 for 0. */
  function BitLength(v: nat): nat
  {
    if v == 0 then 0 else 1 + BitLength(v / 2)
  }

  lemma {:induction false} BitLengthBound(v: nat, m: nat)
    ensures BitLength(v) <= m <==> v < Pow2(m)
  {
    if v > 0 && m > 0 {
      BitLengthBound(v / 2, m - 1);
    }
  }

  /** _check_bits(bits, val): the list of bit indices, or the error raised. */
  function CheckBits(bits: BitsArg, val: Option<int>): (r: Result<seq<int>, TcaError>)
    ensures r.Success? ==> r.value == AsList(bits) && InRange(r.value) && Distinct(r.value)
  {
    var bs := AsList(bits);
    if !InRange(bs) then Failure(BitOutOfRange)
    else if !Distinct(bs) then Failure(DuplicateBits)
    else if val.Some? && val.value != 0 && BitLength(IntAbs(val.value)) > |bs| then Failure(TooLittleBits)
    else Success(bs)
  }

  /** The bits pass exactly when they are pins, pairwise distinct, and wide enough for |val|. */
  lemma CheckBitsAccepts(bits: BitsArg, val: Option<int>)
    ensures CheckBits(bits, val).Success? <==>
              InRange(AsList(bits)) && Distinct(AsList(bits)) &&
              (val.Some? ==> IntAbs(val.value) < Pow2(|AsList(bits)|))
    ensures CheckBits(bits, val).Failure? && !InRange(AsList(bits)) ==>
              CheckBits(bits, val).error == BitOutOfRange
    ensures CheckBits(bits, val).Failure? && InRange(AsList(bits)) && !Distinct(AsList(bits)) ==>
              CheckBits(bits, val).error == DuplicateBits
    ensures CheckBits(bits, val).Failure? && InRange(AsList(bits)) && Distinct(AsList(bits)) ==>
              CheckBits(bits, val).error == TooLittleBits
  {
    if val.Some? {
      BitLengthBound(IntAbs(val.value), |AsList(bits)|);
    }
  }

  // ---------------------------------------------------------------------
  // The register file, read and written
  // ---------------------------------------------------------------------

  /** One byte written to one register address. */
  datatype RegisterWrite = RegisterWrite(address: nat, data: Byte)

  /** Every register address of the chip holds a byte. */
  predicate Complete(regs: map<nat, Byte>)
  {
    0 in regs && 1 in regs && 2 in regs && 3 in regs && 4 in regs && 5 in regs && 6 in regs && 7 in regs
  }

  function ApplyAll(regs: map<nat, Byte>, ws: seq<RegisterWrite>): (r: map<nat, Byte>)
    ensures Complete(regs) ==> Complete(r)
  {
    if |ws| == 0 then regs
    else ApplyAll(regs, ws[..|ws| - 1])[ws[|ws| - 1].address := ws[|ws| - 1].data]
  }

  lemma {:induction false} ApplyAllAppend(regs: map<nat, Byte>, a: seq<RegisterWrite>, b: seq<RegisterWrite>)
    ensures ApplyAll(regs, a + b) == ApplyAll(ApplyAll(regs, a), b)
    decreases |b|
  {
    if |b| > 0 {
      assert (a + b)[..|a + b| - 1] == a + b[..|b| - 1];
      ApplyAllAppend(regs, a, b[..|b| - 1]);
    } else {
      assert a + b == a;
    }
  }

  lemma ApplySingle(regs: map<nat, Byte>, w: RegisterWrite)
    ensures ApplyAll(regs, [w]) == regs[w.address := w.data]
  {
    assert [w][..0] == [];
  }

  lemma ApplyAllEmpty(regs: map<nat, Byte>)
    ensures ApplyAll(regs, []) == regs
  {
  }

  /** The read half of _get_port_state: the port's byte as 8 characters, reversed so pin 0
      comes first (_create_state of a byte is its 8-bit numeral, see PortBitsCreated). */
  function PortBits(regs: map<nat, Byte>, r: Register, port: nat): (s: string)
    requires Complete(regs) && port < Ports
    ensures |s| == BitsPerPort && IsBitString(s)
  {
    Reverse(FixedBits(regs[PortAddress(r, port)] as nat, BitsPerPort))
  }

  /** PortBits is _create_state(byte, 8) reversed. */
  lemma PortBitsCreated(regs: map<nat, Byte>, r: Register, port: nat)
    requires Complete(regs) && port < Ports
    ensures StateString(Number(regs[PortAddress(r, port)] as nat), BitsPerPort).Success?
    ensures PortBits(regs, r, port) == Reverse(StateString(Number(regs[PortAddress(r, port)] as nat), BitsPerPort).value)
  {
    NumberState(regs[PortAddress(r, port)] as nat, BitsPerPort);
  }

  /** Character k of a port state is bit k of the port's byte. */
  lemma PortBitsPins(regs: map<nat, Byte>, r: Register, port: nat)
    requires Complete(regs) && port < Ports
    ensures forall k :: 0 <= k < BitsPerPort ==>
              PortBits(regs, r, port)[k] == BitChar(BitOf(regs[PortAddress(r, port)] as nat, k))
  {
    var b := regs[PortAddress(r, port)] as nat;
    forall k | 0 <= k < BitsPerPort
      ensures PortBits(regs, r, port)[k] == BitChar(BitOf(b, k))
    {
      FixedBitsDigit(b, BitsPerPort, k);
    }
  }

  /** _get_port_state(reg, port). */
  function PortStateOf(regs: map<nat, Byte>, reg: string, port: int): (res: Result<string, TcaError>)
    requires Complete(regs)
  {
    if RegisterNamed(reg).None? then Failure(UnknownRegister)
    else if !IsPort(port) then Failure(PortOutOfRange)
    else Success(PortBits(regs, RegisterNamed(reg).value, port))
  }

  /** A port read fails for an unknown register, then for a port other than 0 or 1;
      otherwise character k is bit k of the port's byte. */
  lemma PortStatePins(regs: map<nat, Byte>, reg: string, port: int)
    requires Complete(regs)
    ensures PortStateOf(regs, reg, port).Success? <==> RegisterNamed(reg).Some? && IsPort(port)
    ensures RegisterNamed(reg).None? ==> PortStateOf(regs, reg, port) == Failure(UnknownRegister)
    ensures RegisterNamed(reg).Some? && !IsPort(port) ==> PortStateOf(regs, reg, port) == Failure(PortOutOfRange)
    ensures PortStateOf(regs, reg, port).Success? ==>
              var r := RegisterNamed(reg).value;
              |PortStateOf(regs, reg, port).value| == BitsPerPort &&
              forall k :: 0 <= k < BitsPerPort ==>
                PortStateOf(regs, reg, port).value[k] == BitChar(BitOf(regs[PortAddress(r, port)] as nat, k))
  {
    if RegisterNamed(reg).Some? && IsPort(port) {
      PortBitsPins(regs, RegisterNamed(reg).value, port);
    }
  }

  /** The two port states of a register, port 0 first. */
  function RegisterBits(regs: map<nat, Byte>, r: Register): (s: string)
    requires Complete(regs)
    ensures |s| == IoBits && IsBitString(s)
  {
    PortBits(regs, r, 0) + PortBits(regs, r, 1)
  }

  /** Pin i of a register's state is bit i mod 8 of the byte of port i / 8. */
  lemma RegisterPins(regs: map<nat, Byte>, r: Register)
    requires Complete(regs)
    ensures forall i :: 0 <= i < IoBits ==>
              RegisterBits(regs, r)[i] == BitChar(BitOf(regs[PortAddress(r, i / BitsPerPort)] as nat, i % BitsPerPort))
  {
    PortBitsPins(regs, r, 0);
    PortBitsPins(regs, r, 1);
    var s := RegisterBits(regs, r);
    forall i | 0 <= i < IoBits
      ensures s[i] == BitChar(BitOf(regs[PortAddress(r, i / BitsPerPort)] as nat, i % BitsPerPort))
    {
      if i < BitsPerPort {
        assert i / BitsPerPort == 0 && i % BitsPerPort == i;
        assert s[i] == PortBits(regs, r, 0)[i];
      } else {
        assert i / BitsPerPort == 1 && i % BitsPerPort == i - BitsPerPort;
        assert s[i] == PortBits(regs, r, 1)[i - BitsPerPort];
      }
    }
  }

  /** _get_state(reg): port 0's state followed by port 1's. */
  function StateOf(regs: map<nat, Byte>, reg: string): (res: Result<string, TcaError>)
    requires Complete(regs)
  {
    if RegisterNamed(reg).None? then Failure(UnknownRegister)
    else Success(RegisterBits(regs, RegisterNamed(reg).value))
  }

  /** _get_state is 16 characters, the first 8 from port 0 and the rest from port 1. */
  lemma StateIsPorts(regs: map<nat, Byte>, reg: string)
    requires Complete(regs)
    ensures StateOf(regs, reg).Success? <==> RegisterNamed(reg).Some?
    ensures StateOf(regs, reg).Failure? ==> StateOf(regs, reg).error == UnknownRegister
    ensures StateOf(regs, reg).Success? ==>
              |StateOf(regs, reg).value| == IoBits &&
              StateOf(regs, reg).value[..BitsPerPort] == PortStateOf(regs, reg, 0).value &&
              StateOf(regs, reg).value[BitsPerPort..] == PortStateOf(regs, reg, 1).value
  {
  }

  /** The write half of _set_port_state: int(reversed(s), 2), pin 0 in the least significant bit. */
  function PortByte(s: string): (b: Byte)
    requires |s| == BitsPerPort
  {
    BinValueBound(Reverse(s));
    BinValue(Reverse(s)) as Byte
  }

  /** The write _set_port_state issues once register and port are checked. */
  function PortWriteTo(r: Register, port: nat, state: StateRepr): (w: Result<RegisterWrite, TcaError>)
    requires port < Ports
  {
    var s :- StateString(state, BitsPerPort);
    Success(RegisterWrite(PortAddress(r, port), PortByte(s)))
  }

  /** _set_port_state(reg, port, state): the single write it issues, or the error raised first. */
  function PortWrite(reg: string, port: int, state: StateRepr): (w: Result<RegisterWrite, TcaError>)
  {
    if RegisterNamed(reg).None? then Failure(UnknownRegister)
    else if !IsPort(port) then Failure(PortOutOfRange)
    else PortWriteTo(RegisterNamed(reg).value, port, state)
  }

  /** A write is refused for an unknown register, then a port other than 0 or 1, then a bad state. */
  lemma PortWriteErrors(reg: string, port: int, state: StateRepr)
    ensures PortWrite(reg, port, state).Success? <==>
              RegisterNamed(reg).Some? && IsPort(port) && StateString(state, BitsPerPort).Success?
    ensures RegisterNamed(reg).None? ==> PortWrite(reg, port, state) == Failure(UnknownRegister)
    ensures RegisterNamed(reg).Some? && !IsPort(port) ==> PortWrite(reg, port, state) == Failure(PortOutOfRange)
    ensures PortWrite(reg, port, state).Success? ==>
              PortWrite(reg, port, state).value.address == PortAddress(RegisterNamed(reg).value, port)
  {
  }

  /** Reading back the byte written for an 8-bit state gives the state. */
  lemma PortBitsRoundTrip(regs: map<nat, Byte>, r: Register, port: nat, s: string)
    requires Complete(regs) && port < Ports && |s| == BitsPerPort && IsBitString(s)
    ensures PortBits(regs[PortAddress(r, port) := PortByte(s)], r, port) == s
  {
    ValueFixedBits(Reverse(s));
    ReverseReverse(s);
  }

  /** A get after a set returns the state set. */
  lemma PortRoundTrip(regs: map<nat, Byte>, reg: string, port: int, state: StateRepr)
    requires Complete(regs) && PortWrite(reg, port, state).Success?
    ensures PortStateOf(ApplyAll(regs, [PortWrite(reg, port, state).value]), reg, port) ==
            StateString(state, BitsPerPort)
  {
    ApplySingle(regs, PortWrite(reg, port, state).value);
    PortBitsRoundTrip(regs, RegisterNamed(reg).value, port, StateString(state, BitsPerPort).value);
  }

  /** Writing one port's byte leaves every other register port as it was. */
  lemma PortWriteFrame(regs: map<nat, Byte>, r: Register, port: nat, b: Byte, r2: Register, port2: nat)
    requires Complete(regs) && port < Ports && port2 < Ports && (r2 != r || port2 != port)
    ensures PortBits(regs[PortAddress(r, port) := b], r2, port2) == PortBits(regs, r2, port2)
  {
    AddressesDistinct(r, port, r2, port2);
  }

  function PortSlice(target: string, port: nat): (s: string)
    requires |target| == IoBits && port < Ports
    ensures |s| == BitsPerPort
  {
    target[port * BitsPerPort .. (port + 1) * BitsPerPort]
  }

  lemma SlicesJoin(target: string)
    requires |target| == IoBits
    ensures target == PortSlice(target, 0) + PortSlice(target, 1)
  {
    assert target == target[..BitsPerPort] + target[BitsPerPort..];
  }

  /** The write _set_state issues for one port: none when the port already holds its slice. */
  function PortUpdate(regs: map<nat, Byte>, r: Register, target: string, port: nat): (u: seq<RegisterWrite>)
    requires Complete(regs) && |target| == IoBits && port < Ports
    ensures |u| <= 1
  {
    var slice := PortSlice(target, port);
    if slice == PortBits(regs, r, port) then [] else [RegisterWrite(PortAddress(r, port), PortByte(slice))]
  }

  /** After its update a port holds its slice of the target; the other port is untouched. */
  lemma PortUpdateSets(regs: map<nat, Byte>, r: Register, target: string, port: nat, other: nat)
    requires Complete(regs) && |target| == IoBits && IsBitString(target)
    requires port < Ports && other < Ports && other != port
    ensures PortBits(ApplyAll(regs, PortUpdate(regs, r, target, port)), r, port) == PortSlice(target, port)
    ensures PortBits(ApplyAll(regs, PortUpdate(regs, r, target, port)), r, other) == PortBits(regs, r, other)
  {
    var slice := PortSlice(target, port);
    if PortUpdate(regs, r, target, port) != [] {
      ApplySingle(regs, PortUpdate(regs, r, target, port)[0]);
      PortBitsRoundTrip(regs, r, port, slice);
      PortWriteFrame(regs, r, port, PortByte(slice), r, other);
    }
  }

  /** The writes _set_state issues for ports port.. of a 16-bit target, port 0 first. */
  function PortUpdates(regs: map<nat, Byte>, r: Register, target: string, port: nat): (us: seq<RegisterWrite>)
    requires Complete(regs) && |target| == IoBits && port <= Ports
    decreases Ports - port
  {
    if port == Ports then []
    else
      var u := PortUpdate(regs, r, target, port);
      u + PortUpdates(ApplyAll(regs, u), r, target, port + 1)
  }

  /** The port loop's invariant, after `done` has been written starting from `regs0` and `log0`. */
  ghost predicate LoopState(regs0: map<nat, Byte>, log0: seq<RegisterWrite>, r: Register, target: string,
                            port: nat, done: seq<RegisterWrite>, regs: map<nat, Byte>, log: seq<RegisterWrite>)
  {
    Complete(regs0) && Complete(regs) && |target| == IoBits && port <= Ports &&
    regs == ApplyAll(regs0, done) && log == log0 + done &&
    done + PortUpdates(regs, r, target, port) == PortUpdates(regs0, r, target, 0)
  }

  /** One step of the port loop: writing this port's update keeps the invariant. */
  lemma PortUpdatesStep(regs0: map<nat, Byte>, log0: seq<RegisterWrite>, r: Register, target: string,
                        port: nat, done: seq<RegisterWrite>, regs: map<nat, Byte>, log: seq<RegisterWrite>)
    requires LoopState(regs0, log0, r, target, port, done, regs, log) && port < Ports
    ensures var u := PortUpdate(regs, r, target, port);
            LoopState(regs0, log0, r, target, port + 1, done + u, ApplyAll(regs, u), log + u)
  {
    var u := PortUpdate(regs, r, target, port);
    ApplyAllAppend(regs0, done, u);
    AppendAssoc(log0, done, u);
    AppendAssoc(done, u, PortUpdates(ApplyAll(regs, u), r, target, port + 1));
  }

  /** Before the first port nothing is written and the invariant holds. */
  lemma LoopStart(regs0: map<nat, Byte>, log0: seq<RegisterWrite>, r: Register, target: string)
    requires Complete(regs0) && |target| == IoBits
    ensures LoopState(regs0, log0, r, target, 0, [], regs0, log0)
  {
    ApplyAllEmpty(regs0);
    assert log0 + [] == log0;
    assert [] + PortUpdates(regs0, r, target, 0) == PortUpdates(regs0, r, target, 0);
  }

  /** After the last port everything written is exactly the port updates. */
  lemma LoopEnd(regs0: map<nat, Byte>, log0: seq<RegisterWrite>, r: Register, target: string,
                done: seq<RegisterWrite>, regs: map<nat, Byte>, log: seq<RegisterWrite>)
    requires LoopState(regs0, log0, r, target, Ports, done, regs, log)
    ensures regs == ApplyAll(regs0, PortUpdates(regs0, r, target, 0))
    ensures log == log0 + PortUpdates(regs0, r, target, 0)
  {
    assert done + [] == done;
  }

  /** The two port updates of _set_state, and the registers after each. */
  lemma UpdatesUnfold(regs: map<nat, Byte>, r: Register, target: string)
    requires Complete(regs) && |target| == IoBits
    ensures var u0 := PortUpdate(regs, r, target, 0);
            var u1 := PortUpdate(ApplyAll(regs, u0), r, target, 1);
            PortUpdates(regs, r, target, 0) == u0 + u1 &&
            ApplyAll(regs, u0 + u1) == ApplyAll(ApplyAll(regs, u0), u1)
  {
    var u0 := PortUpdate(regs, r, target, 0);
    var u1 := PortUpdate(ApplyAll(regs, u0), r, target, 1);
    assert PortUpdates(ApplyAll(regs, u0), r, target, 1) == u1 + [];
    assert u1 + [] == u1;
    ApplyAllAppend(regs, u0, u1);
  }

  /** After the port updates the register holds the target. */
  lemma UpdatesReadBack(regs: map<nat, Byte>, r: Register, target: string)
    requires Complete(regs) && |target| == IoBits && IsBitString(target)
    ensures RegisterBits(ApplyAll(regs, PortUpdates(regs, r, target, 0)), r) == target
  {
    UpdatesUnfold(regs, r, target);
    var u0 := PortUpdate(regs, r, target, 0);
    var r1 := ApplyAll(regs, u0);
    var r2 := ApplyAll(r1, PortUpdate(r1, r, target, 1));
    PortUpdateSets(regs, r, target, 0, 1);
    PortUpdateSets(r1, r, target, 1, 0);
    assert ApplyAll(regs, PortUpdates(regs, r, target, 0)) == r2;
    assert RegisterBits(r2, r) == PortSlice(target, 0) + PortSlice(target, 1);
    SlicesJoin(target);
  }

  /** No port update is issued exactly when the register already holds the target. */
  lemma UpdatesEmptyIff(regs: map<nat, Byte>, r: Register, target: string)
    requires Complete(regs) && |target| == IoBits && IsBitString(target)
    ensures PortUpdates(regs, r, target, 0) == [] <==> RegisterBits(regs, r) == target
  {
    UpdatesUnfold(regs, r, target);
    SlicesJoin(target);
    if RegisterBits(regs, r) == target {
      assert PortSlice(target, 0) == PortBits(regs, r, 0);
      assert PortSlice(target, 1) == PortBits(regs, r, 1);
      ApplyAllEmpty(regs);
    }
    if PortUpdates(regs, r, target, 0) == [] {
      UpdatesReadBack(regs, r, target);
      ApplyAllEmpty(regs);
    }
  }

  /** _set_state(reg, state): the writes issued, or the error raised. */
  function SetStateOf(regs: map<nat, Byte>, reg: string, state: StateRepr): (res: Result<seq<RegisterWrite>, TcaError>)
    requires Complete(regs)
  {
    var target :- StateString(state, IoBits);
    if RegisterNamed(reg).None? then Failure(UnknownRegister)
    else Success(PortUpdates(regs, RegisterNamed(reg).value, target, 0))
  }

  /** _set_state is refused for a bad state first, then for an unknown register. */
  lemma SetStateErrors(regs: map<nat, Byte>, reg: string, state: StateRepr)
    requires Complete(regs)
    ensures SetStateOf(regs, reg, state).Success? <==>
              StateString(state, IoBits).Success? && RegisterNamed(reg).Some?
    ensures StateString(state, IoBits).Failure? ==>
              SetStateOf(regs, reg, state).error == StateString(state, IoBits).error
    ensures StateString(state, IoBits).Success? && RegisterNamed(reg).None? ==>
              SetStateOf(regs, reg, state).error == UnknownRegister
  {
  }

  /** After _set_state the register reads back as the target state. */
  lemma SetStateReadBack(regs: map<nat, Byte>, reg: string, state: StateRepr)
    requires Complete(regs) && SetStateOf(regs, reg, state).Success?
    ensures StateOf(ApplyAll(regs, SetStateOf(regs, reg, state).value), reg) == StateString(state, IoBits)
  {
    UpdatesReadBack(regs, RegisterNamed(reg).value, StateString(state, IoBits).value);
  }

  /** A second identical _set_state performs no writes. */
  lemma SetStateIdempotent(regs: map<nat, Byte>, reg: string, state: StateRepr)
    requires Complete(regs) && SetStateOf(regs, reg, state).Success?
    ensures SetStateOf(ApplyAll(regs, SetStateOf(regs, reg, state).value), reg, state) == Success([])
  {
    var r := RegisterNamed(reg).value;
    var target := StateString(state, IoBits).value;
    var after := ApplyAll(regs, SetStateOf(regs, reg, state).value);
    UpdatesReadBack(regs, r, target);
    UpdatesEmptyIff(after, r, target);
  }

  /** _set_state writes nothing exactly when the register already holds the target state. */
  lemma SetStateDiffOnly(regs: map<nat, Byte>, reg: string, state: StateRepr)
    requires Complete(regs) && SetStateOf(regs, reg, state).Success?
    ensures SetStateOf(regs, reg, state).value == [] <==> StateOf(regs, reg) == StateString(state, IoBits)
  {
    UpdatesEmptyIff(regs, RegisterNamed(reg).value, StateString(state, IoBits).value);
  }

  // ---------------------------------------------------------------------
  // _set_bits
  // ---------------------------------------------------------------------

  /** The new state of _set_bits: `val` at the listed pins, the old state elsewhere. */
  function BitsTarget(state: string, bs: seq<int>, val: nat): (r: string)
    requires val < 2
    ensures |r| == |state|
    ensures IsBitString(state) ==> IsBitString(r)
  {
    seq(|state|, i requires 0 <= i < |state| => if i in bs then BitChar(val) else state[i])
  }

  /** _set_bits(reg, val, bits): the writes issued, or the error raised. */
  function SetBitsOf(regs: map<nat, Byte>, reg: string, val: int, bits: Option<BitsArg>): (r: Result<seq<RegisterWrite>, TcaError>)
    requires Complete(regs)
  {
    if val != 0 && val != 1 then Failure(NotABitValue)
    else if bits.Some? then
      var bs :- CheckBits(bits.value, None);
      var state :- StateOf(regs, reg);
      SetStateOf(regs, reg, Text(BitsTarget(state, bs, val)))
    else
      SetStateOf(regs, reg, Items(seq(IoBits, _ => val as nat)))
  }

  /** The pins _set_bits addresses: the listed ones, or all 16 without a list. */
  predicate Addressed(i: int, bits: Option<BitsArg>)
  {
    bits.None? || i in AsList(bits.value)
  }

  /** _set_bits puts `val` at the addressed pins and keeps every other pin. */
  lemma SetBitsEffect(regs: map<nat, Byte>, reg: string, val: int, bits: Option<BitsArg>)
    requires Complete(regs)
    ensures SetBitsOf(regs, reg, val, bits).Success? <==>
              (val == 0 || val == 1) && RegisterNamed(reg).Some? &&
              (bits.Some? ==> InRange(AsList(bits.value)) && Distinct(AsList(bits.value)))
    ensures val != 0 && val != 1 ==> SetBitsOf(regs, reg, val, bits) == Failure(NotABitValue)
    ensures SetBitsOf(regs, reg, val, bits).Success? ==>
              forall i :: 0 <= i < IoBits ==>
                StateOf(ApplyAll(regs, SetBitsOf(regs, reg, val, bits).value), reg).value[i] ==
                (if Addressed(i, bits) then BitChar(val) else StateOf(regs, reg).value[i])
  {
    if val == 0 || val == 1 {
      if bits.Some? {
        if CheckBits(bits.value, None).Success? && RegisterNamed(reg).Some? {
          var t := BitsTarget(StateOf(regs, reg).value, AsList(bits.value), val);
          TextState(t);
          SetStateReadBack(regs, reg, Text(t));
        }
      } else {
        var xs: seq<nat> := seq(IoBits, _ => val as nat);
        ItemsState(xs, IoBits);
        assert Zeros(0) + BitChars(xs) == BitChars(xs);
        if RegisterNamed(reg).Some? {
          SetStateReadBack(regs, reg, Items(xs));
        }
      }
    }
  }

  // ---------------------------------------------------------------------
  // int_to_bits and int_from_bits
  // ---------------------------------------------------------------------

  /** bits.index(x): the first position of x. */
  function FirstIndex(bs: seq<int>, x: int): (r: nat)
    requires x in bs
    ensures r < |bs| && bs[r] == x
    ensures forall k :: 0 <= k < r ==> bs[k] != x
  {
    if bs[0] == x then 0 else 1 + FirstIndex(bs[1..], x)
  }

  lemma FirstIndexDistinct(bs: seq<int>, k: nat)
    requires Distinct(bs) && k < |bs|
    ensures FirstIndex(bs, bs[k]) == k
  {
  }

  /** The new state of int_to_bits: the value's bits at the listed pins, `state` elsewhere. */
  function PackTarget(state: string, bs: seq<int>, valBits: string): (r: string)
    requires |valBits| == |bs|
    ensures |r| == |state|
    ensures IsBitString(state) && IsBitString(valBits) ==> IsBitString(r)
  {
    seq(|state|, i requires 0 <= i < |state| => if i in bs then valBits[FirstIndex(bs, i)] else state[i])
  }

  /** int_to_bits(bits, val): the writes to the output register, or the error raised. */
  function IntToBitsOf(regs: map<nat, Byte>, bs: seq<int>, val: nat): (r: Result<seq<RegisterWrite>, TcaError>)
    requires Complete(regs)
  {
    var state := RegisterBits(regs, Input);
    var valBits :- StateString(Number(val), |bs|);
    SetStateOf(regs, "output", Text(PackTarget(state, bs, Reverse(valBits))))
  }

  /** The reversed n-bit numeral of val holds bit j of val at position j. */
  lemma ReversedNumeral(val: nat, m: nat)
    requires m >= 1 && val < Pow2(m)
    ensures StateString(Number(val), m).Success?
    ensures forall j :: 0 <= j < m ==> Reverse(StateString(Number(val), m).value)[j] == BitChar(BitOf(val, j))
  {
    NumberState(val, m);
    forall j | 0 <= j < m
      ensures Reverse(FixedBits(val, m))[j] == BitChar(BitOf(val, j))
    {
      FixedBitsDigit(val, m, j);
    }
  }

  /** Output pin bits[k] becomes bit k of val, least significant first; other
      output pins are copied from the input register. */
  lemma IntToBitsEffect(regs: map<nat, Byte>, bs: seq<int>, val: nat)
    requires Complete(regs)
    ensures IntToBitsOf(regs, bs, val).Success? <==> |bs| >= 1 && val < Pow2(|bs|)
    ensures IntToBitsOf(regs, bs, val).Failure? ==> IntToBitsOf(regs, bs, val).error == WrongLength
    ensures IntToBitsOf(regs, bs, val).Success? ==>
              forall i :: 0 <= i < IoBits ==>
                RegisterBits(ApplyAll(regs, IntToBitsOf(regs, bs, val).value), Output)[i] ==
                (if i in bs then BitChar(BitOf(val, FirstIndex(bs, i))) else RegisterBits(regs, Input)[i])
  {
    NumberState(val, |bs|);
    if |bs| >= 1 && val < Pow2(|bs|) {
      ReversedNumeral(val, |bs|);
      var t := PackTarget(RegisterBits(regs, Input), bs, Reverse(StateString(Number(val), |bs|).value));
      TextState(t);
      assert RegisterNamed("output") == Some(Output);
      assert IntToBitsOf(regs, bs, val) == Success(PortUpdates(regs, Output, t, 0));
      UpdatesReadBack(regs, Output, t);
    }
  }

  /** Python indexing of a string of length n, negative indices counting from the end. */
  predicate Indexable(n: nat, i: int) { -(n as int) <= i < n }

  function PyIndex(n: nat, i: int): (r: nat)
    requires Indexable(n, i)
    ensures r < n
  {
    if i >= 0 then i else n + i
  }

  predicate AllIndexable(n: nat, bs: seq<int>)
  {
    forall k :: 0 <= k < |bs| ==> Indexable(n, bs[k])
  }

  /** The characters state[bit] for bit in bits. */
  function Picked(state: string, bs: seq<int>): (r: string)
    requires AllIndexable(|state|, bs)
    ensures |r| == |bs|
  {
    seq(|bs|, k requires 0 <= k < |bs| => state[PyIndex(|state|, bs[k])])
  }

  /** int_from_bits' rule on a state string: int(reversed(picked), 2), or the error raised. */
  function BitsValueOf(state: string, bs: seq<int>): (r: Result<nat, TcaError>)
  {
    if !AllIndexable(|state|, bs) then Failure(BitOutOfRange)
    else if |bs| == 0 then Failure(EmptyBits)
    else Success(BinValue(Reverse(Picked(state, bs))))
  }

  /** Bit k of the value read is the pin bits[k]; the value fits in |bits| bits. */
  lemma BitsValueDigits(state: string, bs: seq<int>)
    requires IsBitString(state)
    ensures BitsValueOf(state, bs).Success? <==> AllIndexable(|state|, bs) && |bs| >= 1
    ensures BitsValueOf(state, bs).Success? ==>
              BitsValueOf(state, bs).value < Pow2(|bs|) &&
              forall k :: 0 <= k < |bs| ==>
                BitChar(BitOf(BitsValueOf(state, bs).value, k)) == state[PyIndex(|state|, bs[k])]
  {
    if AllIndexable(|state|, bs) && |bs| >= 1 {
      var m := |bs|;
      var p := Reverse(Picked(state, bs));
      assert IsBitString(p);
      BinValueBound(p);
      ValueFixedBits(p);
      forall k | 0 <= k < m
        ensures BitChar(BitOf(BinValue(p), k)) == state[PyIndex(|state|, bs[k])]
      {
        FixedBitsDigit(BinValue(p), m, k);
      }
    }
  }

  /** A 16-pin state whose pins bits[k] hold bit k of val reads back as val. */
  lemma PackedValue(out: string, bs: seq<int>, val: nat)
    requires |out| == IoBits && InRange(bs) && Distinct(bs) && |bs| >= 1 && val < Pow2(|bs|)
    requires forall i :: 0 <= i < IoBits && i in bs ==> out[i] == BitChar(BitOf(val, FirstIndex(bs, i)))
    ensures BitsValueOf(out, bs) == Success(val)
  {
    var m := |bs|;
    var fixed := FixedBits(val, m);
    forall k | 0 <= k < m
      ensures Picked(out, bs)[k] == Reverse(fixed)[k]
    {
      FirstIndexDistinct(bs, k);
      FixedBitsDigit(val, m, k);
    }
    assert Picked(out, bs) == Reverse(fixed);
    ReverseReverse(fixed);
    FixedBitsValue(val, m);
  }

  /** Reading the packed pins back with int_from_bits' rule gives the value again. */
  lemma IntRoundTrip(regs: map<nat, Byte>, bs: seq<int>, val: nat)
    requires Complete(regs) && InRange(bs) && Distinct(bs) && |bs| >= 1 && val < Pow2(|bs|)
    ensures IntToBitsOf(regs, bs, val).Success?
    ensures BitsValueOf(RegisterBits(ApplyAll(regs, IntToBitsOf(regs, bs, val).value), Output), bs) == Success(val)
  {
    IntToBitsEffect(regs, bs, val);
    PackedValue(RegisterBits(ApplyAll(regs, IntToBitsOf(regs, bs, val).value), Output), bs, val);
  }

  // ---------------------------------------------------------------------
  // is_high
  // ---------------------------------------------------------------------

  /** is_high(bit): whether pin `bit` of the input register reads 1. */
  function IsHighOf(regs: map<nat, Byte>, bit: int): (r: Result<bool, TcaError>)
    requires Complete(regs)
  {
    var bs :- CheckBits(One(bit), None);
    Success(RegisterBits(regs, Input)[bs[0]] == '1')
  }

  /** is_high reads bit `bit mod 8` of the input byte of port `bit / 8`. */
  lemma IsHighPin(regs: map<nat, Byte>, bit: int)
    requires Complete(regs)
    ensures IsHighOf(regs, bit).Success? <==> 0 <= bit < IoBits
    ensures IsHighOf(regs, bit).Failure? ==> IsHighOf(regs, bit).error == BitOutOfRange
    ensures IsHighOf(regs, bit).Success? ==>
              (IsHighOf(regs, bit).value <==> BitOf(regs[PortAddress(Input, bit / BitsPerPort)] as nat, bit % BitsPerPort) == 1)
  {
    RegisterPins(regs, Input);
  }

  // ---------------------------------------------------------------------
  // The driver object
  // ---------------------------------------------------------------------

  /** How a state-changing call relates to its spec: on success the writes are
      applied and logged in order; on failure the error is raised and nothing
      was written. */
  predicate Performs(r: Result<seq<RegisterWrite>, TcaError>, o: Outcome<TcaError>,
                     regs0: map<nat, Byte>, log0: seq<RegisterWrite>,
                     regs1: map<nat, Byte>, log1: seq<RegisterWrite>)
  {
    match r
    case Success(ws) => o == Pass && regs1 == ApplyAll(regs0, ws) && log1 == log0 + ws
    case Failure(e) => o == Fail(e) && regs1 == regs0 && log1 == log0
  }

  function AsWrites(r: Result<RegisterWrite, TcaError>): Result<seq<RegisterWrite>, TcaError>
  {
    match r
    case Success(w) => Success([w])
    case Failure(e) => Failure(e)
  }

  /** int(bool(x)). */
  function AsBit(x: int): int
  {
    if x != 0 then 1 else 0
  }

  /** The TCA9555 driver: the chip's eight register bytes and the log of bytes written. */
  class Tca9555 {
    var registers: map<nat, Byte>
    var writes: seq<RegisterWrite>

    ghost predicate Valid()
      reads this
    {
      Complete(registers)
    }

    constructor (initial: map<nat, Byte>)
      requires Complete(initial)
      ensures Valid() && registers == initial && writes == []
    {
      registers := initial;
      writes := [];
    }

    /** _write_reg: one byte to one register address. */
    method WriteRegister(w: RegisterWrite)
      modifies this
      requires Valid()
      ensures Valid()
      ensures registers == ApplyAll(old(registers), [w]) && writes == old(writes) + [w]
    {
      ApplySingle(registers, w);
      registers := registers[w.address := w.data];
      writes := writes + [w];
    }

    /** _create_state(repr, n). */
    method CreateState(repr: StateRepr, n: nat) returns (r: Result<string, TcaError>)
      ensures r == StateString(repr, n)
    {
      var state: string;
      match repr {
        case Number(v) =>
          state := PadLeft(Binary(v), n);
        case Items(xs) =>
          state := ItemsLoop(xs);
          if |state| < n {
            state := Zeros(n - |state|) + state;
          }
        case Text(cs) =>
          var digits := DigitsLoop(cs);
          if digits.Failure? {
            return Failure(NotADigit);
          }
          state := digits.value;
          if |state| < n {
            state := Zeros(n - |state|) + state;
          }
      }
      if |state| != n {
        return Failure(WrongLength);
      }
      return Success(state);
    }

    /** The loop of _create_state over an iterable: the binary numeral of every item, in order. */
    method ItemsLoop(xs: seq<nat>) returns (state: string)
      ensures state == ItemsBits(xs)
    {
      state := "";
      var i := 0;
      while i < |xs|
        invariant 0 <= i <= |xs| && state == ItemsBits(xs[..i])
      {
        assert xs[..i + 1][..i] == xs[..i];
        state := state + Binary(xs[i]);
        i := i + 1;
      }
      assert xs[..|xs|] == xs;
    }

    /** The same loop over a string: int() of each character, which fails on the first non-digit. */
    method DigitsLoop(cs: string) returns (r: Result<string, TcaError>)
      ensures r.Success? <==> AllDigits(cs)
      ensures r.Failure? ==> r.error == NotADigit
      ensures r.Success? ==> r.value == ItemsBits(Digits(cs))
    {
      var state := "";
      var i := 0;
      while i < |cs|
        invariant 0 <= i <= |cs| && AllDigits(cs[..i]) && state == ItemsBits(Digits(cs[..i]))
      {
        if !IsDigit(cs[i]) {
          return Failure(NotADigit);
        }
        ghost var prefix := cs[..i + 1];
        assert prefix[..i] == cs[..i] && prefix[i] == cs[i];
        assert AllDigits(prefix);
        assert Digits(prefix)[..i] == Digits(cs[..i]);
        assert Digits(prefix)[i] == (cs[i] as int - '0' as int) as nat;
        state := state + Binary((cs[i] as int - '0' as int) as nat);
        i := i + 1;
      }
      assert cs[..|cs|] == cs;
      return Success(state);
    }

    /** _set_port_state(reg, port, state): one byte, pin 0 in the least significant bit. */
    method SetPortState(reg: string, port: int, state: StateRepr) returns (o: Outcome<TcaError>)
      modifies this
      requires Valid()
      ensures Valid()
      ensures Performs(AsWrites(PortWrite(reg, port, state)), o, old(registers), old(writes), registers, writes)
    {
      if CheckRegister(reg).Fail? {
        return Fail(UnknownRegister);
      }
      if !IsPort(port) {
        return Fail(PortOutOfRange);
      }
      o := WritePort(RegisterNamed(reg).value, port, state);
    }

    /** The rest of _set_port_state: create the 8-bit state, reverse it and write the byte. */
    method WritePort(r: Register, port: nat, state: StateRepr) returns (o: Outcome<TcaError>)
      modifies this
      requires Valid() && port < Ports
      ensures Valid()
      ensures Performs(AsWrites(PortWriteTo(r, port, state)), o, old(registers), old(writes), registers, writes)
    {
      var target := CreateState(state, BitsPerPort);
      if target.Failure? {
        return Fail(target.error);
      }
      WriteRegister(RegisterWrite(PortAddress(r, port), PortByte(target.value)));
      o := Pass;
    }

    /** One iteration of _set_state's port loop: read the port, write its slice if it differs. */
    method UpdatePort(r: Register, target: string, port: nat)
      modifies this
      requires Valid()
      requires |target| == IoBits && IsBitString(target) && port < Ports
      ensures Valid()
      ensures registers == ApplyAll(old(registers), PortUpdate(old(registers), r, target, port))
      ensures writes == old(writes) + PortUpdate(old(registers), r, target, port)
    {
      var current := PortBits(registers, r, port);
      var slice := PortSlice(target, port);
      if slice != current {
        TextState(slice);
        var o := WritePort(r, port, Text(slice));
      } else {
        ApplyAllEmpty(registers);
      }
    }

    /** One pass of the port loop of _set_state, as a step of the loop's invariant. */
    method PortStep(r: Register, target: string, port: nat, ghost regs0: map<nat, Byte>,
                    ghost log0: seq<RegisterWrite>, ghost done: seq<RegisterWrite>)
      returns (ghost done': seq<RegisterWrite>)
      modifies this
      requires port < Ports && LoopState(regs0, log0, r, target, port, done, registers, writes)
      requires IsBitString(target)
      ensures LoopState(regs0, log0, r, target, port + 1, done', registers, writes)
    {
      ghost var u := PortUpdate(registers, r, target, port);
      PortUpdatesStep(regs0, log0, r, target, port, done, registers, writes);
      UpdatePort(r, target, port);
      done' := done + u;
    }

    /** The port loop of _set_state for a 16-character target state. */
    method WritePorts(r: Register, target: string)
      modifies this
      requires Valid() && |target| == IoBits && IsBitString(target)
      ensures Valid()
      ensures registers == ApplyAll(old(registers), PortUpdates(old(registers), r, target, 0))
      ensures writes == old(writes) + PortUpdates(old(registers), r, target, 0)
    {
      ghost var done: seq<RegisterWrite> := [];
      var port: nat := 0;
      LoopStart(registers, writes, r, target);
      while port < Ports
        invariant port <= Ports
        invariant LoopState(old(registers), old(writes), r, target, port, done, registers, writes)
      {
        done := PortStep(r, target, port, old(registers), old(writes), done);
        port := port + 1;
      }
      LoopEnd(old(registers), old(writes), r, target, done, registers, writes);
    }

    /** _set_state(reg, state), also the public set_state: writes each port whose slice differs.
        The register check _get_port_state makes on the first port precedes every write, so it
        is made here, before the port loop. */
    method SetState(reg: string, state: StateRepr) returns (o: Outcome<TcaError>)
      modifies this
      requires Valid()
      ensures Valid()
      ensures Performs(SetStateOf(old(registers), reg, state), o, old(registers), old(writes), registers, writes)
    {
      var created := CreateState(state, IoBits);
      if created.Failure? {
        return Fail(created.error);
      }
      if CheckRegister(reg).Fail? {
        return Fail(UnknownRegister);
      }
      WritePorts(RegisterNamed(reg).value, created.value);
      o := Pass;
    }

    /** The loop of _set_bits building the new state character by character. */
    method BitsState(state: string, bs: seq<int>, val: nat) returns (newState: string)
      requires val < 2
      ensures newState == BitsTarget(state, bs, val)
    {
      newState := "";
      var i := 0;
      while i < |state|
        invariant 0 <= i <= |state| && newState == BitsTarget(state, bs, val)[..i]
      {
        if i in bs {
          newState := newState + Binary(val);
        } else {
          newState := newState + [state[i]];
        }
        i := i + 1;
      }
    }

    /** _set_bits(reg, val, bits): `val` at the listed pins, or at all 16 without a list. */
    method SetRegisterBits(reg: string, val: int, bits: Option<BitsArg>) returns (o: Outcome<TcaError>)
      modifies this
      requires Valid()
      ensures Valid()
      ensures Performs(SetBitsOf(old(registers), reg, val, bits), o, old(registers), old(writes), registers, writes)
    {
      if val != 0 && val != 1 {
        return Fail(NotABitValue);
      }
      if bits.Some? {
        var checked := CheckBits(bits.value, None);
        if checked.Failure? {
          return Fail(checked.error);
        }
        var bs := checked.value;
        var current := StateOf(registers, reg);
        if current.Failure? {
          return Fail(current.error);
        }
        var newState := BitsState(current.value, bs, val);
        o := SetState(reg, Text(newState));
      } else {
        o := SetState(reg, Items(seq(IoBits, _ => val as nat)));
      }
    }

    /** The loop of int_to_bits: pin i takes val_bits[bits.index(i)] when listed, state[i] otherwise. */
    method PackState(state: string, bs: seq<int>, valBits: string) returns (newState: string)
      requires |valBits| == |bs|
      ensures newState == PackTarget(state, bs, valBits)
    {
      newState := "";
      var i := 0;
      while i < |state|
        invariant 0 <= i <= |state| && newState == PackTarget(state, bs, valBits)[..i]
      {
        if i in bs {
          newState := newState + [valBits[FirstIndex(bs, i)]];
        } else {
          newState := newState + [state[i]];
        }
        i := i + 1;
      }
    }

    /** int_to_bits(bits, val): pack val into the listed output pins. */
    method IntToBits(bs: seq<int>, val: nat) returns (o: Outcome<TcaError>)
      modifies this
      requires Valid()
      ensures Valid()
      ensures Performs(IntToBitsOf(old(registers), bs, val), o, old(registers), old(writes), registers, writes)
    {
      var state := RegisterBits(registers, Input);
      var created := CreateState(Number(val), |bs|);
      if created.Failure? {
        return Fail(created.error);
      }
      var newState := PackState(state, bs, Reverse(created.value));
      o := SetState("output", Text(newState));
    }

    /** int_from_bits(bits): the value held by the listed input pins, bits[0] least significant. */
    method IntFromBits(bs: seq<int>) returns (r: Result<nat, TcaError>)
      requires Valid()
      ensures r == BitsValueOf(RegisterBits(registers, Input), bs)
    {
      var state := RegisterBits(registers, Input);
      var bitState := "";
      var i := 0;
      while i < |bs|
        invariant 0 <= i <= |bs| && AllIndexable(|state|, bs[..i]) && bitState == Picked(state, bs[..i])
      {
        if !Indexable(|state|, bs[i]) {
          return Failure(BitOutOfRange);
        }
        bitState := bitState + [state[PyIndex(|state|, bs[i])]];
        i := i + 1;
      }
      assert bs[..|bs|] == bs;
      if |bitState| == 0 {
        return Failure(EmptyBits);
      }
      return Success(BinValue(Reverse(bitState)));
    }

    /** set_direction(direction, bits): 1 makes the pins inputs, 0 outputs. */
    method SetDirection(direction: int, bits: Option<BitsArg>) returns (o: Outcome<TcaError>)
      modifies this
      requires Valid()
      ensures Valid() && o != Fail(NotABitValue)
      ensures Performs(SetBitsOf(old(registers), "config", AsBit(direction), bits), o, old(registers), old(writes), registers, writes)
    {
      o := SetRegisterBits("config", AsBit(direction), bits);
    }

    /** set_polarity(polarity, bits): 1 inverts the pins' input polarity. */
    method SetPolarity(polarity: int, bits: Option<BitsArg>) returns (o: Outcome<TcaError>)
      modifies this
      requires Valid()
      ensures Valid() && o != Fail(NotABitValue)
      ensures Performs(SetBitsOf(old(registers), "polarity", AsBit(polarity), bits), o, old(registers), old(writes), registers, writes)
    {
      o := SetRegisterBits("polarity", AsBit(polarity), bits);
    }

    /** set_level(level, bits): the output level of the pins. */
    method SetLevel(level: int, bits: Option<BitsArg>) returns (o: Outcome<TcaError>)
      modifies this
      requires Valid()
      ensures Valid() && o != Fail(NotABitValue)
      ensures Performs(SetBitsOf(old(registers), "output", AsBit(level), bits), o, old(registers), old(writes), registers, writes)
    {
      o := SetRegisterBits("output", AsBit(level), bits);
    }

    /** set_bits(bits): drive the pins high. */
    method SetBits(bits: Option<BitsArg>) returns (o: Outcome<TcaError>)
      modifies this
      requires Valid()
      ensures Valid()
      ensures Performs(SetBitsOf(old(registers), "output", 1, bits), o, old(registers), old(writes), registers, writes)
    {
      o := SetLevel(1, bits);
    }

    /** unset_bits(bits): drive the pins low. */
    method UnsetBits(bits: Option<BitsArg>) returns (o: Outcome<TcaError>)
      modifies this
      requires Valid()
      ensures Valid()
      ensures Performs(SetBitsOf(old(registers), "output", 0, bits), o, old(registers), old(writes), registers, writes)
    {
      o := SetLevel(0, bits);
    }
  }
}
