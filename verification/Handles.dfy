/** The handle record of the C library: what it stores about one analyzer, and how responses fill it. */
module Handles {
  import opened Bytes
  import opened Analyzer
  import opened Waveform
  import RegistrySpec

  const HW_DESC: byte := 0x07
  const LNB_DESC: byte := 0x0D

  function Flagged(input: Input, f: Flags): Input {
    input.(rfAvail := f.rfAvail, db70 := f.db70, lnbAvail := f.lnbAvail)
  }

  /** Input i with its level window; only available inputs get one. */
  function Windowed(hw: Hardware, input: Input, i: nat, fxdg: byte): Input {
    if i < hw.availInputs then input.(window := WindowOf(hw.firmware, input.db70, fxdg)) else input
  }

  /** What the front panel says of itself. */
  datatype FrontPanel = FrontPanel(firmware: int, mbFab: byte, fpFab: byte, projID: int)

  function PanelOf(rx: seq<byte>): FrontPanel
    requires |rx| >= 13
  {
    FrontPanel(Word16(rx, 5), rx[7], rx[8], Word16(rx, 11))
  }

  /** What a spectrum call leaves behind: the current settings, and the two halves of the trace. */
  datatype Trace = Trace(current: Settings, amplitude: seq<real>, frequency: seq<real>)

  function WaveTrace(firmware: int, rx: seq<byte>, bits: int, at: nat, amplitude: seq<real>): Trace
    requires at + 12 <= |rx| && (bits == 32 || bits == 64)
  {
    Trace(WaveSettings(firmware, rx, at), amplitude, Axis(ULong(bits, Word32(rx, at)), ULong(bits, Word32(rx, at + 4))))
  }

  /** What a received packet makes of the trace before it. For any type but the two of waveforms the axis is
      computed from uninitialised variables (`cf`, `sp`) and the rest is kept. */
  function TraceOf(firmware: int, rx: seq<byte>, bits: int, before: Trace, cf: int, sp: int): Trace
    requires |rx| == 1024 && (bits == 32 || bits == 64)
  {
    if rx[3] == WAVE_12BIT then
      WaveTrace(firmware, rx, bits, 485, Amplitudes12(rx[4..484], DecodeLevel(firmware, rx[493])))
    else if rx[3] == WAVE_8BIT then
      WaveTrace(firmware, rx, bits, 325, Amplitudes8(rx[4..324], DecodeLevel(firmware, rx[333])))
    else before.(frequency := Axis(cf, sp))
  }

  /** A trace depends on the packet alone, exactly if the packet is a waveform: otherwise settings and amplitudes
      are those stored before, on an axis of uninitialised variables. */
  lemma TraceOfAnswer(firmware: int, rx: seq<byte>, bits: int)
    requires |rx| == 1024 && (bits == 32 || bits == 64)
    ensures (forall a, b, cf, sp, cf2, sp2 ::
        TraceOf(firmware, rx, bits, a, cf, sp) == TraceOf(firmware, rx, bits, b, cf2, sp2))
      <==> rx[3] == WAVE_12BIT || rx[3] == WAVE_8BIT
    ensures rx[3] != 0x0F && rx[3] != 0x09 ==> forall a, cf, sp ::
      TraceOf(firmware, rx, bits, a, cf, sp) == Trace(a.current, a.amplitude, Axis(cf, sp))
  {
    if rx[3] != WAVE_12BIT && rx[3] != WAVE_8BIT {
      var a := Trace(Settings(0, 0, 0, 0, 0, 0), [], []);
      var b := a.(amplitude := [0.0]);
      assert TraceOf(firmware, rx, bits, a, 0, 0).amplitude != TraceOf(firmware, rx, bits, b, 0, 0).amplitude;
    }
  }

  class Handle {
    var socketfd: int
    var address: Option<RegistrySpec.Address>
    var portno: int
    var hardware: Hardware
    var limits: Limits
    var inputs: seq<Input>
    var current: Settings
    var panel: FrontPanel

    /** Fresh memory holds arbitrary values; only the socket and the port are set. */
    constructor (port: int, hardware: Hardware, limits: Limits, inputs: seq<Input>, current: Settings,
                 panel: FrontPanel)
      requires |inputs| == 6
      ensures socketfd == -1 && portno == port % 0x1_0000 && address == None
      ensures this.hardware == hardware && this.limits == limits && this.inputs == inputs
      ensures this.current == current && this.panel == panel
    {
      socketfd, address := -1, None;
      portno := port % 0x1_0000;
      this.hardware, this.limits, this.inputs, this.current, this.panel := hardware, limits, inputs, current, panel;
    }

    /** Stores the hardware description response. */
    method LoadHardware(rx: array<byte>)
      requires rx.Length >= 60 && |inputs| == 6
      modifies this`hardware, this`limits, this`inputs, this`current
      ensures hardware == HardwareOf(rx[..]) && current == SettingsOf(rx[..])
      ensures limits == LimitsOf(rx[4], rx[58], old(limits))
      ensures |inputs| == 6
      ensures forall i :: 0 <= i < 6 ==> inputs[i] == Flagged(old(inputs)[i], FlagsOf(rx[..], i))
    {
      LoadHead(rx);
      LoadTail(rx);
    }

    method LoadHead(rx: array<byte>)
      requires rx.Length >= 60
      modifies this`hardware, this`limits, this`current
      ensures hardware ==
        old(hardware).(prodID := rx[4], firmware := Word16(rx[..], 5), pcbFab := rx[45], projID := rx[58])
      ensures current.(input := 0, lnb := 0) == SettingsOf(rx[..]).(input := 0, lnb := 0)
      ensures limits == LimitsOf(rx[4], rx[58], old(limits))
    {
      hardware := hardware.(prodID := rx[4], firmware := Word16(rx[..], 5));
      current := current.(cf := Signed32(Word32(rx[..], 8)));
      current := current.(sp := Signed32(Word32(rx[..], 12)));
      current := current.(refLevel := Signed(rx[16]));
      if hardware.firmware < 0x0300 {
        current := current.(refLevel := -current.refLevel);
      }
      current := current.(rbw := rx[17]);
      hardware := hardware.(pcbFab := rx[45], projID := rx[58]);
      limits := LimitsOf(hardware.prodID, hardware.projID, limits);
    }

    method LoadTail(rx: array<byte>)
      requires rx.Length >= 60 && |inputs| == 6
      requires hardware.prodID == rx[4] && hardware.firmware == Word16(rx[..], 5)
      requires hardware.pcbFab == rx[45] && hardware.projID == rx[58]
      modifies this`hardware, this`inputs, this`current
      ensures hardware == HardwareOf(rx[..])
      ensures current == old(current).(input := rx[19] as int - 9, lnb := rx[55])
      ensures |inputs| == 6
      ensures forall i :: 0 <= i < 6 ==> inputs[i] == Flagged(old(inputs)[i], FlagsOf(rx[..], i))
    {
      hardware := hardware.(rbws := RbwsOf(rx[18]));
      current := current.(input := rx[19] as int - 9);
      hardware := hardware.(availInputs := UChar(rx[20] as int - 10));
      hardware := hardware.(serial := rx[29..45], calDay := rx[46] as int - 10, calMonth := rx[47] as int - 10,
                            calYear := rx[48] as int * 100 + rx[49]);
      LoadFlags(rx);
      current := current.(lnb := rx[55]);
    }

    method LoadFlags(rx: array<byte>)
      requires rx.Length >= 60 && |inputs| == 6 && hardware.availInputs == AvailInputs(rx[20])
      modifies this`inputs
      ensures |inputs| == 6
      ensures forall i :: 0 <= i < 6 ==> inputs[i] == Flagged(old(inputs)[i], FlagsOf(rx[..], i))
    {
      var i := 0;
      while i < 6
        invariant 0 <= i <= 6 && |inputs| == 6
        invariant forall k :: 0 <= k < i ==> inputs[k] == Flagged(old(inputs)[k], FlagsOf(rx[..], k))
        invariant forall k :: i <= k < 6 ==> inputs[k] == old(inputs)[k]
      {
        if i < hardware.availInputs {
          inputs := inputs[i := inputs[i].(rfAvail := true, db70 := Bit(rx[59], i), lnbAvail := Bit(rx[54], i + 1))];
        } else {
          inputs := inputs[i := inputs[i].(rfAvail := false, db70 := false, lnbAvail := false)];
        }
        i := i + 1;
      }
    }

    /** Stores the level windows from the LNB description response. */
    method LoadWindows(rx: array<byte>)
      requires rx.Length >= 43 && |inputs| == 6 && hardware.availInputs <= 6
      modifies this`inputs
      ensures |inputs| == 6
      ensures forall i :: 0 <= i < 6 ==> inputs[i] == Windowed(hardware, old(inputs)[i], i, rx[37 + i])
    {
      var i := 0;
      while i < hardware.availInputs
        invariant 0 <= i <= hardware.availInputs && |inputs| == 6
        invariant forall k :: 0 <= k < i ==> inputs[k] == Windowed(hardware, old(inputs)[k], k, rx[37 + k])
        invariant forall k :: i <= k < 6 ==> inputs[k] == old(inputs)[k]
      {
        var w := WindowFrom(inputs[i].db70, rx[37 + i]);
        inputs := inputs[i := inputs[i].(window := w)];
        i := i + 1;
      }
    }

    /** The window of one input, its ends shifted by the gain in `char` arithmetic. */
    method WindowFrom(db70: bool, fxdg: byte) returns (w: Window)
      ensures w == WindowOf(hardware.firmware, db70, fxdg)
    {
      var max := -10;
      var min := -50;
      if db70 {
        min := -70;
      }
      if hardware.firmware > 0x02FF {
        max := SChar(max - fxdg);
        min := SChar(min - fxdg);
      }
      w := Window(min, max);
    }

    /** Stores the front panel's description. */
    method LoadPanel(rx: array<byte>)
      requires rx.Length >= 13
      modifies this`panel
      ensures panel == PanelOf(rx[..])
    {
      panel := panel.(firmware := Word16(rx[..], 5));
      panel := panel.(mbFab := rx[7]);
      panel := panel.(fpFab := rx[8]);
      panel := panel.(projID := Word16(rx[..], 11));
    }

    /** Stores a waveform response: amplitudes, frequency axis and current settings. */
    method StoreSpectrum(rx: array<byte>, amplitude: array<real>, frequency: array<real>, bits: int, cf: int, sp: int)
      requires rx.Length == 1024 && amplitude.Length == POINTS && frequency.Length == POINTS && amplitude != frequency
      requires bits == 32 || bits == 64
      modifies this`current, amplitude, frequency
      ensures Trace(current, amplitude[..], frequency[..]) ==
        TraceOf(hardware.firmware, rx[..], bits, Trace(old(current), old(amplitude[..]), old(frequency[..])), cf, sp)
    {
      if rx[3] == WAVE_12BIT {
        Store12Bit(rx, amplitude, frequency, bits);
      } else if rx[3] == WAVE_8BIT {
        Store8Bit(rx, amplitude, frequency, bits);
      } else {
        StoreAxis(cf, sp, frequency);
      }
    }

    method Store12Bit(rx: array<byte>, amplitude: array<real>, frequency: array<real>, bits: int)
      requires rx.Length == 1024 && amplitude.Length == POINTS && frequency.Length == POINTS && amplitude != frequency
      requires bits == 32 || bits == 64
      modifies this`current, amplitude, frequency
      ensures current == WaveSettings(hardware.firmware, rx[..], 485)
      ensures amplitude[..] == Amplitudes12(rx[4..484], DecodeLevel(hardware.firmware, rx[493]))
      ensures frequency[..] == Axis(ULong(bits, Word32(rx[..], 485)), ULong(bits, Word32(rx[..], 489)))
    {
      var level := StoreLevel(rx[493]);
      current := current.(rbw := rx[494], input := rx[495] as int - 9, lnb := rx[496]);
      Store12(rx, level, amplitude);
      var cf := ULong(bits, Word32(rx[..], 485));
      current := current.(cf := Signed32(Word32(rx[..], 485)));
      var sp := ULong(bits, Word32(rx[..], 489));
      current := current.(sp := Signed32(Word32(rx[..], 489)));
      StoreAxis(cf, sp, frequency);
    }

    method Store8Bit(rx: array<byte>, amplitude: array<real>, frequency: array<real>, bits: int)
      requires rx.Length == 1024 && amplitude.Length == POINTS && frequency.Length == POINTS && amplitude != frequency
      requires bits == 32 || bits == 64
      modifies this`current, amplitude, frequency
      ensures current == WaveSettings(hardware.firmware, rx[..], 325)
      ensures amplitude[..] == Amplitudes8(rx[4..324], DecodeLevel(hardware.firmware, rx[333]))
      ensures frequency[..] == Axis(ULong(bits, Word32(rx[..], 325)), ULong(bits, Word32(rx[..], 329)))
    {
      var level := StoreLevel(rx[333]);
      current := current.(rbw := rx[334], input := rx[335] as int - 9, lnb := rx[336]);
      Store8(rx, level, amplitude);
      var cf := ULong(bits, Word32(rx[..], 325));
      current := current.(cf := Signed32(Word32(rx[..], 325)));
      var sp := ULong(bits, Word32(rx[..], 329));
      current := current.(sp := Signed32(Word32(rx[..], 329)));
      StoreAxis(cf, sp, frequency);
    }

    /** The reference level of a waveform response, as a `char`. */
    method StoreLevel(b: byte) returns (level: int)
      modifies this`current
      ensures level == DecodeLevel(hardware.firmware, b) && current == old(current).(refLevel := level)
    {
      level := Signed(b);
      if hardware.firmware < 0x0300 {
        level := SChar(-level);
      }
      current := current.(refLevel := level);
    }
  }
}
