/** The produce form of src/components/ProduceForm.tsx: five text fields
    and `handleSubmit`, which hands them to `addBlock`. */
module Produce {
  import opened Text
  import opened Blocks
  import opened JsParse
  import opened LedgerStore
  import Analytics

  const EmptyData := BlockData("", "", "", "", "")

  /** The check `handleSubmit` makes: farmer, crop, quantity and price
      must be non-empty; notes may be empty. Nothing else is checked. */
  predicate Complete(f: BlockData) {
    f.farmer != "" && f.crop != "" && f.quantity != "" && f.price != ""
  }

  /** What `handleSubmit` ends with: rejected, recorded, or stopped by
      `btoa` inside `addBlock` before the reset. */
  datatype SubmitOutcome = MissingFields | Recorded | Threw

  /** The component state: the `formData` record. */
  class ProduceForm {
    var form: BlockData

    constructor ()
      ensures form == EmptyData
    {
      form := EmptyData;
    }

    /** `handleSubmit` on the ledger `onAddBlock` writes to, at clock
        reading `timestamp`. An incomplete form changes nothing; a
        complete one is passed to `addBlock` as it is, and the fields are
        cleared only when that returns. */
    method HandleSubmit(ledger: Ledger, timestamp: string) returns (outcome: SubmitOutcome)
      modifies this, ledger
      ensures outcome == MissingFields <==> !Complete(old(form))
      ensures outcome == MissingFields ==>
        form == old(form) && ledger.blocks == old(ledger.blocks) && ledger.stored == old(ledger.stored)
      ensures outcome != MissingFields ==>
        (outcome == Recorded <==> Append(old(ledger.blocks), old(form), timestamp).Some?)
      ensures outcome == Recorded ==>
        ledger.blocks == Append(old(ledger.blocks), old(form), timestamp).value
        && DataOf(ledger.blocks[|old(ledger.blocks)|]) == old(form)
        && ledger.stored == Saved(ledger.blocks) && form == EmptyData
      ensures outcome == Threw ==>
        form == old(form) && ledger.blocks == old(ledger.blocks) && ledger.stored == old(ledger.stored)
    {
      if !Complete(form) {
        return MissingFields;
      }
      var ok := ledger.AddBlock(form, timestamp);
      if !ok {
        return Threw;
      }
      form := EmptyData;
      return Recorded;
    }
  }

  /** Only emptiness is checked: a quantity that is blank or no number at
      all passes the form, and the analytics then count it as 0. */
  lemma {:induction false} JunkQuantityCountsZero(farmer: string, crop: string, price: string, notes: string, b: Block)
    requires farmer != "" && crop != "" && price != ""
    requires DataOf(b) == BlockData(farmer, crop, " ", price, notes) || DataOf(b) == BlockData(farmer, crop, "abc", price, notes)
    ensures Complete(DataOf(b))
    ensures Analytics.Quantity(b) == 0
  {
    if b.quantity == " " {
      assert TrimStart(" ") == "";
    } else {
      WordsAreZero("abc");
    }
  }
}
