/** The audio interface as it is updated in place. */
module AiUnit {
  import opened AiSpec

  class AudioInterface {
    const dmaAddress: array<nat>
    const dmaLength: array<nat>
    var dmaCount: nat
    var dmaAddressCarry: bool
    var cycles: nat
    var period: nat
    /** Samples pushed to the frontend and interrupts raised, in order. */
    var pushed: seq<Output>
    var raises: nat

    ghost predicate Shaped()
      reads this
    {
      dmaAddress != dmaLength && dmaAddress.Length == 2 && dmaLength.Length == 2
    }

    ghost function View(): Ai
      requires Shaped()
      reads this, dmaAddress, dmaLength
    {
      Ai(dmaAddress[0], dmaLength[0], dmaAddress[1], dmaLength[1], dmaCount, dmaAddressCarry, cycles, period, pushed, raises)
    }

    ghost predicate Valid()
      reads this, dmaAddress, dmaLength
    {
      Shaped() && AiSpec.Valid(View())
    }

    constructor (firstPeriod: nat)
      requires firstPeriod > 0
      ensures Valid() && fresh(dmaAddress) && fresh(dmaLength)
      ensures View() == Ai(0, 0, 0, 0, 0, false, 0, firstPeriod, [], 0)
    {
      dmaAddress, dmaLength := new nat[2](_ => 0), new nat[2](_ => 0);
      dmaCount, dmaAddressCarry, cycles, period, pushed, raises := 0, false, 0, firstPeriod, [], 0;
    }

    method WriteDramAddress(value: nat)
      requires Valid()
      modifies dmaAddress
      ensures Valid() && View() == WriteAddress(old(View()), value)
    {
      WritesKeepValid(View(), value);
      hide AddressOf;
      if dmaCount < 2 {
        dmaAddress[dmaCount] := AddressOf(value);
      }
    }

    method WriteLen(value: nat)
      requires Valid()
      modifies this, dmaLength
      ensures Valid() && View() == WriteLength(old(View()), value)
    {
      WritesKeepValid(View(), value);
      hide LengthOf;
      var length := LengthOf(value);
      if dmaCount < 2 && length > 0 {
        dmaLength[dmaCount] := length;
        dmaCount := dmaCount + 1;
      }
    }

    method TakeSample()
      requires Valid()
      modifies this, dmaAddress, dmaLength
      ensures Valid() && View() == Sample(old(View()))
    {
      ghost var was := View();
      SampleKeepsValid(was);
      CarriedFacts(dmaAddress[0], dmaAddressCarry);
      hide AiSpec.Valid;
      if dmaCount == 0 {
        pushed := pushed + [Silence];
        return;
      }
      ghost var a := Carried(dmaAddress[0], dmaAddressCarry);
      var addressHi := (dmaAddress[0] / CARRY + (if dmaAddressCarry then 1 else 0)) % 0x800;
      dmaAddress[0] := addressHi * CARRY + dmaAddress[0] % CARRY;
      assert dmaAddress[0] == a;
      hide Carried;
      pushed := pushed + [Word(dmaAddress[0])];
      var addressLo := (dmaAddress[0] + 4) % CARRY;
      dmaAddress[0] := dmaAddress[0] / CARRY * CARRY + addressLo;
      dmaAddressCarry := addressLo == 0;
      dmaLength[0] := dmaLength[0] - 4;
      if dmaLength[0] == 0 {
        raises := raises + 1;
        dmaCount := dmaCount - 1;
        if dmaCount > 0 {
          dmaAddress[0] := dmaAddress[1];
          dmaLength[0] := dmaLength[1];
        }
      }
    }

    /** Lets `elapsed` cycles pass, a sample a period. */
    method Step(elapsed: nat)
      requires Valid()
      modifies this, dmaAddress, dmaLength
      ensures Valid() && View() == AiStep(old(View()), elapsed)
    {
      ghost var was := View();
      hide Sample;
      cycles := cycles + elapsed;
      while cycles > period
        invariant Valid() && Drain(View()) == AiStep(was, elapsed)
        decreases cycles
      {
        SampleKeepsValid(View());
        TakeSample();
        cycles := cycles - period;
      }
    }
  }
}
