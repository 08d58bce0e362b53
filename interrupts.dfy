/** The hardware-interrupt numbering of `interrupts.rs` and the line editor its
    keyboard handler runs. */
module Interrupts {
  import opened Text
  import Kbd = Keyboard

  /** First vector of the primary PIC: just past the 32 CPU exception vectors. */
  const Pic1Offset: byte := 32
  /** First vector of the secondary PIC, `PIC_1_OFFSET + 8` on `u8`. */
  const Pic2Offset: byte := Pic1Offset + 8

  /** `InterruptIndex`: `Timer = PIC_1_OFFSET` and `Keyboard` the next value. */
  datatype InterruptIndex = Timer | Keyboard

  /** `InterruptIndex::as_u8`: the vector number; every index is one of the
      primary PIC's eight vectors. */
  function AsU8(i: InterruptIndex): (v: byte)
    ensures Pic1Offset <= v < Pic2Offset
  {
    match i
    case Timer => Pic1Offset
    case Keyboard => Pic1Offset + 1
  }

  /** `InterruptIndex::as_usize`: the same vector, widened without loss. */
  function AsUsize(i: InterruptIndex): (v: nat)
    ensures v == AsU8(i) as nat
  {
    AsU8(i) as nat
  }

  /** The index a vector number stands for, if any. */
  function FromVector(v: nat): (r: Option<InterruptIndex>)
    ensures r.Some? ==> AsU8(r.value) == v
  {
    if v == Pic1Offset as nat then Some(Timer)
    else if v == Pic1Offset as nat + 1 then Some(Keyboard)
    else None
  }

  /** Every index's vector leads back to it, so no two indices share a vector. */
  lemma VectorRoundTrip(i: InterruptIndex)
    ensures FromVector(AsU8(i) as nat) == Some(i)
  {
  }

  /** Timer is vector 32, Keyboard 33; the secondary PIC starts at 40; no vector
      falls among the CPU exceptions 0-31. */
  lemma VectorLayout()
    ensures AsU8(Timer) == 32 && AsU8(Keyboard) == 33
    ensures Pic2Offset == Pic1Offset + 8 == 40
    ensures forall i: InterruptIndex :: AsU8(i) >= 32
  {
  }

  /** The part of `keyboard_interrupt_handler` after the scancode read: a key
      decoded from the scancode, if any, goes through the handler's own line
      editor, and the end of interrupt is signalled for the keyboard vector. */
  method KeyboardInterruptHandler(editor: Kbd.LineEditor, key: Option<Kbd.DecodedKey>)
    returns (action: Option<Kbd.EditAction>, eoi: byte)
    requires editor.Valid()
    modifies editor, editor.buffer
    ensures editor.Valid()
    ensures eoi == AsU8(Keyboard)
    ensures key.None? ==> action.None? && editor.State() == old(editor.State())
    ensures key.Some? ==> (editor.State(), action) == (Kbd.Step(old(editor.State()), key.value).0, Some(Kbd.Step(old(editor.State()), key.value).1))
  {
    if key.Some? {
      var a := editor.HandleKey(key.value);
      action := Some(a);
    } else {
      action := None;
    }
    eoi := AsU8(Keyboard);
  }
}
