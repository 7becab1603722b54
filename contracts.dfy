/** The smart-contract list of src/components/SmartContracts.tsx: the
    form, `createContract` and `executeContract`, each of which records a
    block on the ledger. */
module Contracts {
  import opened Text
  import opened Blocks
  import opened JsParse
  import opened Digest
  import opened LedgerStore

  datatype ContractType = SupplyChain | QualityAssurance | Payment | Insurance

  /** The string value of the type union, as the notes show it. */
  function TypeName(t: ContractType): string
  {
    match t
    case SupplyChain => "supply_chain"
    case QualityAssurance => "quality_assurance"
    case Payment => "payment"
    case Insurance => "insurance"
  }

  datatype Status = Pending | Active | Completed | Breached

  /** A contract record. `id` is the random id and `created` the ISO
      clock reading, both supplied by the caller. */
  datatype Contract = Contract(
    id: string,
    kind: ContractType,
    parties: seq<string>,
    terms: string,
    status: Status,
    created: string,
    conditions: seq<string>)

  /** The creation form: the type selector and three text fields. */
  datatype ContractForm = ContractForm(kind: ContractType, parties: string, terms: string, conditions: string)

  const EmptyForm := ContractForm(SupplyChain, "", "", "")

  /** `parties.split(',').map(p => p.trim())`: one party per comma-separated
      piece, so one more than the number of commas; each is trimmed and
      holds no comma. */
  function Parties(text: string): (ps: seq<string>)
    ensures |ps| == Count(text, ',') + 1
    ensures forall i :: 0 <= i < |ps| ==> Trimmed(ps[i]) && ',' !in ps[i]
  {
    var pieces := Split(text, ',');
    var ps := seq(|pieces|, i requires 0 <= i < |pieces| => Trim(pieces[i]));
    assert forall i :: 0 <= i < |ps| ==> Trimmed(ps[i]) && ',' !in ps[i] by {
      forall i | 0 <= i < |ps| ensures Trimmed(ps[i]) && ',' !in ps[i] {
        TrimShape(pieces[i]);
      }
    }
    ps
  }

  /** `lines.filter(c => c.trim())`: the lines that are not blank, kept as
      they are (untrimmed) and in order. */
  function NonBlank(lines: seq<string>): (r: seq<string>)
    ensures |r| <= |lines|
    ensures forall x :: x in r <==> x in lines && Trim(x) != ""
  {
    if lines == [] then []
    else
      var rest := NonBlank(lines[1..]);
      assert forall x :: x in lines <==> x == lines[0] || x in lines[1..] by {
        assert lines == [lines[0]] + lines[1..];
      }
      if Trim(lines[0]) != "" then [lines[0]] + rest else rest
  }

  /** The conditions of the form: the non-blank lines of the text. */
  function Conditions(text: string): seq<string>
  {
    NonBlank(Split(text, '\n'))
  }

  /** The conditions are no more than the lines of the text, each one a
      whole non-blank line, every non-blank line among them; a single
      non-blank line is the one condition. */
  lemma {:induction false} ConditionsLines(text: string)
    ensures |Conditions(text)| <= Count(text, '\n') + 1
    ensures forall x :: x in Conditions(text) <==> x in Split(text, '\n') && Trim(x) != ""
    ensures forall i :: 0 <= i < |Conditions(text)| ==> '\n' !in Conditions(text)[i] && Trim(Conditions(text)[i]) != ""
    ensures '\n' !in text && Trim(text) != "" ==> Conditions(text) == [text]
  {
    var lines := Split(text, '\n');
    var r := NonBlank(lines);
    forall i | 0 <= i < |r| ensures '\n' !in r[i] {
      assert r[i] in lines;
      var k :| 0 <= k < |lines| && lines[k] == r[i];
    }
    if '\n' !in text {
      SplitNoSep(text, '\n');
    }
  }

  /** The contract `createContract` builds from the form. */
  function NewContract(f: ContractForm, id: string, created: string): (c: Contract)
    ensures c.status == Pending && c.id == id && c.created == created
    ensures c.kind == f.kind && c.terms == f.terms
    ensures c.parties == Parties(f.parties) && c.conditions == Conditions(f.conditions)
  {
    Contract(id, f.kind, Parties(f.parties), f.terms, Pending, created, Conditions(f.conditions))
  }

  /** The fixed farmer name of every block the contract code records. */
  const SystemFarmer := "Smart Contract System"

  /** The block recorded for a new contract. */
  function CreatedData(c: Contract): (d: BlockData)
    ensures d.farmer == SystemFarmer && d.crop == "Contract Created"
    ensures d.quantity == "1" && d.price == "0"
    ensures d.notes == "Contract ID: " + c.id + " | Type: " + TypeName(c.kind) + " | Parties: " + Join(c.parties, ", ")
  {
    BlockData(SystemFarmer, "Contract Created", "1", "0",
      "Contract ID: " + c.id + " | Type: " + TypeName(c.kind) + " | Parties: " + Join(c.parties, ", "))
  }

  /** The block recorded when a contract is executed. */
  function ExecutedData(id: string): (d: BlockData)
    ensures d.farmer == SystemFarmer && d.crop == "Contract Executed"
    ensures d.quantity == "1" && d.price == "0"
    ensures d.notes == "Contract " + id + " has been executed and is now active."
  {
    BlockData(SystemFarmer, "Contract Executed", "1", "0", "Contract " + id + " has been executed and is now active.")
  }

  /** The map in `executeContract`: every contract with the id becomes
      active, every other one is kept. */
  function Activate(cs: seq<Contract>, id: string): (r: seq<Contract>)
    ensures |r| == |cs|
    ensures forall i :: 0 <= i < |cs| ==> r[i] == if cs[i].id == id then cs[i].(status := Active) else cs[i]
  {
    seq(|cs|, i requires 0 <= i < |cs| => if cs[i].id == id then cs[i].(status := Active) else cs[i])
  }

  /** What `createContract` ends with: rejected for a missing field,
      recorded, or stopped by `btoa` inside `addBlock` (after the contract
      was already appended). */
  datatype CreateOutcome = MissingInformation | Recorded | Threw

  /** The component state: the contract list and the creation form. */
  class ContractBook {
    var contracts: seq<Contract>
    var form: ContractForm

    constructor ()
      ensures contracts == [] && form == EmptyForm
    {
      contracts := [];
      form := EmptyForm;
    }

    /** `createContract()` with the random id, the clock readings and the
        ledger `onAddBlock` writes to. An empty parties or terms field
        changes nothing. Otherwise the contract is appended first; then the
        block is added, and only when that succeeds is the form reset. */
    method CreateContract(id: string, created: string, ledger: Ledger, timestamp: string) returns (outcome: CreateOutcome)
      modifies this, ledger
      ensures old(form.parties) == "" || old(form.terms) == "" ==>
        outcome == MissingInformation && contracts == old(contracts) && form == old(form)
        && ledger.blocks == old(ledger.blocks) && ledger.stored == old(ledger.stored)
      ensures old(form.parties) != "" && old(form.terms) != "" ==>
        contracts == old(contracts) + [NewContract(old(form), id, created)] && outcome != MissingInformation
      ensures outcome != MissingInformation ==>
        (outcome == Recorded <==> Append(old(ledger.blocks), CreatedData(NewContract(old(form), id, created)), timestamp).Some?)
      ensures outcome == Recorded ==>
        ledger.blocks == Append(old(ledger.blocks), CreatedData(NewContract(old(form), id, created)), timestamp).value
        && ledger.stored == Saved(ledger.blocks) && form == EmptyForm
      ensures outcome == Threw ==>
        Append(old(ledger.blocks), CreatedData(NewContract(old(form), id, created)), timestamp).None?
        && ledger.blocks == old(ledger.blocks) && ledger.stored == old(ledger.stored) && form == old(form)
    {
      if form.parties == "" || form.terms == "" {
        return MissingInformation;
      }
      var contract := NewContract(form, id, created);
      contracts := contracts + [contract];
      var ok := ledger.AddBlock(CreatedData(contract), timestamp);
      if !ok {
        return Threw;
      }
      form := EmptyForm;
      return Recorded;
    }

    /** `executeContract(contractId)`: matching contracts become active
        and an execution block is added whether or not any matched. */
    method ExecuteContract(contractId: string, ledger: Ledger, timestamp: string) returns (ok: bool)
      modifies this, ledger
      ensures contracts == Activate(old(contracts), contractId) && form == old(form)
      ensures ok <==> Append(old(ledger.blocks), ExecutedData(contractId), timestamp).Some?
      ensures ok ==>
        ledger.blocks == Append(old(ledger.blocks), ExecutedData(contractId), timestamp).value
        && ledger.stored == Saved(ledger.blocks)
      ensures !ok ==> ledger.blocks == old(ledger.blocks) && ledger.stored == old(ledger.stored)
    {
      contracts := Activate(contracts, contractId);
      ok := ledger.AddBlock(ExecutedData(contractId), timestamp);
    }
  }

  /** Parties are the trimmed comma-separated pieces. */
  lemma {:induction false} PartiesOfPieces(text: string, pieces: seq<string>)
    requires Split(text, ',') == pieces
    ensures |Parties(text)| == |pieces|
    ensures forall i :: 0 <= i < |pieces| ==> Parties(text)[i] == Trim(pieces[i])
  {
  }

  /** A list of trimmed, comma-free names written as the notes write it
      (joined with `", "`) splits back into the same names. */
  lemma {:induction false} PartiesOfJoin(names: seq<string>)
    requires |names| > 0
    requires forall i :: 0 <= i < |names| ==> Trimmed(names[i]) && ',' !in names[i]
    ensures Parties(Join(names, ", ")) == names
  {
    var pieces := [names[0]] + Spaced(names[1..]);
    JoinCommaSpace(names);
    forall i | 0 <= i < |pieces| ensures ',' !in pieces[i] && Trim(pieces[i]) == names[i] {
      if i == 0 {
        PieceOf(names[i], pieces[i], false);
      } else {
        assert pieces[i] == Spaced(names[1..])[i - 1];
        PieceOf(names[i], pieces[i], true);
      }
    }
    SplitJoin(pieces, ',');
    PartiesOfPieces(Join(names, ", "), pieces);
  }

  /** A piece of the joined names, after a blank unless it is the first,
      trims back to the name and holds no comma. */
  lemma {:induction false} PieceOf(name: string, piece: string, blank: bool)
    requires Trimmed(name) && ',' !in name
    requires piece == if blank then " " + name else name
    ensures ',' !in piece && Trim(piece) == name
  {
    TrimOfTrimmed(name);
  }

  /** The parties listed in a contract's notes read back as its parties:
      splitting the `", "`-joined list on commas and trimming gives the
      same list. */
  lemma {:induction false} PartiesRoundTrip(text: string)
    ensures Parties(Join(Parties(text), ", ")) == Parties(text)
  {
    PartiesOfJoin(Parties(text));
  }

  /** With no blank line the conditions are all the lines. */
  lemma {:induction false} NonBlankKeepsAll(lines: seq<string>)
    requires forall i :: 0 <= i < |lines| ==> Trim(lines[i]) != ""
    ensures NonBlank(lines) == lines
  {
    if lines != [] {
      NonBlankKeepsAll(lines[1..]);
      assert [lines[0]] + lines[1..] == lines;
    }
  }

  /** A blank line is dropped: the filter keeps every line that is not. */
  lemma {:induction false} NonBlankDrops(a: seq<string>, blank: string, b: seq<string>)
    requires Trim(blank) == ""
    ensures NonBlank(a + [blank] + b) == NonBlank(a) + NonBlank(b)
  {
    if a == [] {
      assert a + [blank] + b == [blank] + b;
      assert ([blank] + b)[1..] == b;
    } else {
      assert (a + [blank] + b)[1..] == a[1..] + [blank] + b;
      NonBlankDrops(a[1..], blank, b);
    }
  }

  /** Executing a contract twice is executing it once. */
  lemma {:induction false} ActivateIdempotent(cs: seq<Contract>, id: string)
    ensures Activate(Activate(cs, id), id) == Activate(cs, id)
  {
  }

  /** Executing an id no contract has leaves the list as it is. */
  lemma {:induction false} ActivateUnknown(cs: seq<Contract>, id: string)
    requires forall i :: 0 <= i < |cs| ==> cs[i].id != id
    ensures Activate(cs, id) == cs
  {
  }

  /** Execution changes statuses only: ids, parties, terms, conditions and
      creation times stay, and only contracts with the id move to
      `Active`. */
  lemma {:induction false} ActivateKeepsRecords(cs: seq<Contract>, id: string, i: nat)
    requires i < |cs|
    ensures Activate(cs, id)[i].(status := cs[i].status) == cs[i]
    ensures Activate(cs, id)[i].status != cs[i].status ==> cs[i].id == id && Activate(cs, id)[i].status == Active
  {
  }

  /** Every block the contract code records carries the same digest, the
      base64 of `{"farmer":"Smar`, so any such block's stored hash also
      matches every other one's. */
  lemma {:induction false} SystemBlocksShareDigest(b: Block)
    requires FieldsLatin1(b) && b.farmer == SystemFarmer
    ensures Latin1("{\"farmer\":\"Smar")
    ensures VerifyDigest(b) == Some(Base64("{\"farmer\":\"Smar"))
  {
    VerifyEncodes(b);
    SideDigest(b, false);
    SystemWindow(b);
  }

  lemma {:induction false} SystemWindow(b: Block)
    requires b.farmer == SystemFarmer
    ensures Window(b) == "{\"farmer\":\"Smar"
  {
    assert b.farmer[0] == 'S' && b.farmer[1] == 'm' && b.farmer[2] == 'a' && b.farmer[3] == 'r';
    PlainWindow(b);
    SystemWindowText();
  }

  lemma {:induction false} SystemWindowText()
    ensures "{\"farmer\":\"" + SystemFarmer[..4] == "{\"farmer\":\"Smar"
  {
    assert SystemFarmer[..4] == "Smar";
  }
}
