/**
 * src/server/receipts/service.ts: the canonical payload of a simulated receipt, its hash, and
 * what verification can tell from them. The hash is any injective function. A date or decimal
 * column stands for the text the payload prints it as.
 */
module Receipts {
  import opened Common
  import opened Json
  import opened CanonicalJson

  datatype Status = DRAFT | ISSUED | VOID

  /** The columns the hash covers. */
  datatype Row = Row(
    receiptNumber: Text,
    customerName: Text,
    customerRef: Option<Text>,
    periodStart: Text,
    periodEnd: Text,
    rawBytes: Text,
    optimizedBytes: Text,
    savedBytes: Text,
    savingPct: Option<Text>,
    savingsKind: Text,
    pricePerGb: Text,
    baseFee: Text,
    freeQuotaGb: Text,
    billableGb: Text,
    simulatedTotal: Text,
    currency: Text,
    providerLabel: Text,
    stampEnabled: bool,
    disclaimer: Text,
    status: Status,
    generatedAt: Text,
    source: Text)

  /** A percentage that is not missing is a finite number. */
  predicate Measured(row: Row) {
    row.savingPct.Some? ==> NumberToken(row.savingPct.value)
  }

  const NAMES: seq<string> := [
    "v", "kind", "receiptNumber", "customerName", "customerRef", "periodStart", "periodEnd", "rawBytes",
    "optimizedBytes", "savedBytes", "savingPct", "savingsKind", "pricePerGb", "baseFee", "freeQuotaGb", "billableGb",
    "simulatedTotal", "currency", "providerLabel", "stampEnabled", "disclaimer", "status", "generatedAt", "source"]

  function StatusText(status: Status): Text {
    match status
    case DRAFT => Ascii("DRAFT")
    case ISSUED => Ascii("ISSUED")
    case VOID => Ascii("VOID")
  }

  function Optional(t: Option<Text>): Value {
    if t.Some? then Str(t.value) else Null
  }

  function Columns(row: Row): (c: seq<Value>)
    ensures |c| == 24
  {
    [ Number([49]), Str(Ascii("vwray.simulated-receipt")), Str(row.receiptNumber), Str(row.customerName),
      Optional(row.customerRef), Str(row.periodStart), Str(row.periodEnd), Str(row.rawBytes),
      Str(row.optimizedBytes), Str(row.savedBytes), if row.savingPct.Some? then Number(row.savingPct.value) else Null,
      Str(row.savingsKind), Str(row.pricePerGb), Str(row.baseFee), Str(row.freeQuotaGb), Str(row.billableGb),
      Str(row.simulatedTotal), Str(row.currency), Str(row.providerLabel), Bool(row.stampEnabled),
      Str(row.disclaimer), Str(StatusText(row.status)), Str(row.generatedAt), Str(row.source)]
  }

  function Payload(row: Row): Value {
    Obj(0, seq(24, i requires 0 <= i < 24 => Member(Ascii(NAMES[i]), Columns(row)[i])))
  }

  /** Each column is printed under its own name. */
  lemma PayloadAt(row: Row, k: nat)
    requires k < 24
    ensures |Payload(row).members| == 24
    ensures Payload(row).members[k] == Member(Ascii(NAMES[k]), Columns(row)[k])
  {
    hide Ascii, Columns;
  }

  lemma IdentityColumns(row: Row)
    ensures Columns(row)[0] == Number([49])
    ensures Columns(row)[1] == Str(Ascii("vwray.simulated-receipt"))
    ensures Columns(row)[2] == Str(row.receiptNumber)
    ensures Columns(row)[3] == Str(row.customerName)
    ensures Columns(row)[4] == Optional(row.customerRef)
    ensures Columns(row)[5] == Str(row.periodStart)
    ensures Columns(row)[6] == Str(row.periodEnd)
    ensures Columns(row)[7] == Str(row.rawBytes)
  {
    hide Ascii;
  }

  lemma VolumeColumns(row: Row)
    ensures Columns(row)[8] == Str(row.optimizedBytes)
    ensures Columns(row)[9] == Str(row.savedBytes)
    ensures Columns(row)[10] == if row.savingPct.Some? then Number(row.savingPct.value) else Null
    ensures Columns(row)[11] == Str(row.savingsKind)
    ensures Columns(row)[12] == Str(row.pricePerGb)
    ensures Columns(row)[13] == Str(row.baseFee)
    ensures Columns(row)[14] == Str(row.freeQuotaGb)
    ensures Columns(row)[15] == Str(row.billableGb)
  {
    hide Ascii;
  }

  lemma RestColumns(row: Row)
    ensures Columns(row)[16] == Str(row.simulatedTotal)
    ensures Columns(row)[17] == Str(row.currency)
    ensures Columns(row)[18] == Str(row.providerLabel)
    ensures Columns(row)[19] == Bool(row.stampEnabled)
    ensures Columns(row)[20] == Str(row.disclaimer)
    ensures Columns(row)[21] == Str(StatusText(row.status))
    ensures Columns(row)[22] == Str(row.generatedAt)
    ensures Columns(row)[23] == Str(row.source)
  {
    hide Ascii;
  }

  lemma FirstNames()
    ensures NAMES[0] == "v" && NAMES[1] == "kind" && NAMES[2] == "receiptNumber" && NAMES[3] == "customerName"
    ensures NAMES[4] == "customerRef" && NAMES[5] == "periodStart" && NAMES[6] == "periodEnd" && NAMES[7] == "rawBytes"
  {
  }

  lemma MiddleNames()
    ensures NAMES[8] == "optimizedBytes" && NAMES[9] == "savedBytes" && NAMES[10] == "savingPct"
            && NAMES[11] == "savingsKind"
    ensures NAMES[12] == "pricePerGb" && NAMES[13] == "baseFee" && NAMES[14] == "freeQuotaGb"
            && NAMES[15] == "billableGb"
  {
  }

  lemma LastNames()
    ensures NAMES[16] == "simulatedTotal" && NAMES[17] == "currency" && NAMES[18] == "providerLabel"
            && NAMES[19] == "stampEnabled"
    ensures NAMES[20] == "disclaimer" && NAMES[21] == "status" && NAMES[22] == "generatedAt" && NAMES[23] == "source"
  {
  }

  function CanonicalPayload(row: Row): Text {
    Print(Norm(Payload(row)))
  }

  lemma NamesDiffer(i: nat, j: nat)
    requires i < j < 24
    ensures |NAMES| == 24 && NAMES[i] != NAMES[j]
  {
  }

  lemma KeysDiffer(i: nat, j: nat)
    requires i < j < 24
    ensures Ascii(NAMES[i]) != Ascii(NAMES[j])
  {
    NamesDiffer(i, j);
    if Ascii(NAMES[i]) == Ascii(NAMES[j]) {
      AsciiInjective(NAMES[i], NAMES[j], i, j);
    }
  }

  predicate Plain(s: string) {
    forall i :: 0 <= i < |s| ==> s[i] < 0x80 as char
  }

  lemma NamesPlain(i: nat)
    requires i < 24
    ensures Plain(NAMES[i])
  {
  }

  lemma AsciiInjective(a: string, b: string, i: nat, j: nat)
    requires i < 24 && j < 24 && a == NAMES[i] && b == NAMES[j] && Ascii(a) == Ascii(b)
    ensures a == b
  {
    NamesPlain(i);
    NamesPlain(j);
    forall k | 0 <= k < |a|
      ensures a[k] == b[k]
    {
      assert Ascii(a)[k] == Ascii(b)[k];
    }
  }

  lemma PayloadWellFormed(row: Row)
    requires Measured(row)
    ensures WellFormed(Payload(row))
  {
    var members := Payload(row).members;
    forall i, j | 0 <= i < j < |members|
      ensures members[i].key != members[j].key
    {
      KeysDiffer(i, j);
    }
    forall i | 0 <= i < |members|
      ensures WellFormed(members[i].value)
    {
      ColumnScalar(row, i);
    }
  }

  lemma ColumnScalar(row: Row, i: nat)
    requires i < 24 && Measured(row)
    ensures var c := Columns(row)[i]; Scalar(c) && WellFormed(c) && c != Undefined && !c.Odd?
  {
  }

  function TextOf(v: Value): Text {
    if v.Str? then v.s else []
  }

  function OptionOf(v: Value): Option<Text> {
    match v
    case Str(s) => Some(s)
    case Number(token) => Some(token)
    case _ => None
  }

  function StatusOf(v: Value): Status {
    if v == Str(StatusText(DRAFT)) then DRAFT else if v == Str(StatusText(ISSUED)) then ISSUED else VOID
  }

  /** The row read back from its columns. */
  function RowOf(c: seq<Value>): Row
    requires |c| == 24
  {
    Row(TextOf(c[2]), TextOf(c[3]), OptionOf(c[4]), TextOf(c[5]),
        TextOf(c[6]), TextOf(c[7]), TextOf(c[8]), TextOf(c[9]),
        OptionOf(c[10]), TextOf(c[11]), TextOf(c[12]), TextOf(c[13]), TextOf(c[14]), TextOf(c[15]), TextOf(c[16]),
        TextOf(c[17]), TextOf(c[18]), c[19] == Bool(true), TextOf(c[20]), StatusOf(c[21]), TextOf(c[22]), TextOf(c[23]))
  }

  lemma ColumnsRoundTrip(row: Row)
    ensures RowOf(Columns(row)) == row
  {
    StatusTextInjective(row.status, DRAFT);
    StatusTextInjective(row.status, ISSUED);
    hide Ascii, StatusText;
  }

  lemma SameColumns(r: Row, q: Row)
    requires forall i :: 0 <= i < 24 ==> Columns(r)[i] == Columns(q)[i]
    ensures r == q
  {
    hide Columns, RowOf;
    assert Columns(r) == Columns(q);
    ColumnsRoundTrip(r);
    ColumnsRoundTrip(q);
  }

  lemma StatusTextInjective(a: Status, b: Status)
    ensures StatusText(a) == StatusText(b) <==> a == b
  {
    assert |StatusText(DRAFT)| == 5 && |StatusText(ISSUED)| == 6 && |StatusText(VOID)| == 4;
  }

  /** The payload covers its columns: two rows print one payload exactly when no covered column differs. */
  lemma PayloadCoversRow(r: Row, q: Row)
    requires Measured(r) && Measured(q)
    ensures CanonicalPayload(r) == CanonicalPayload(q) <==> r == q
  {
    hide Print, Norm, Same, WellFormed, Columns, Ascii;
    if CanonicalPayload(r) == CanonicalPayload(q) {
      var a, b := Payload(r), Payload(q);
      PayloadWellFormed(r);
      PayloadWellFormed(q);
      CanonicalExactly(a, b);
      forall i: nat | i < 24
        ensures Columns(r)[i] == Columns(q)[i]
      {
        ColumnScalar(r, i);
        ColumnScalar(q, i);
        var j := SameMember(a, b, i);
        if i < j {
          KeysDiffer(i, j);
        } else if j < i {
          KeysDiffer(j, i);
        }
        SameScalars(Columns(r)[i], Columns(q)[i]);
      }
      SameColumns(r, q);
    }
  }

  lemma SameScalars(a: Value, b: Value)
    requires Scalar(a) && Scalar(b) && Same(a, b) && a != Undefined && b != Undefined && !a.Odd? && !b.Odd?
    ensures a == b
  {
  }

  // -------------------------------------------------------------- the register

  /** A stored receipt: its columns, the payload as issued, and the payload's hash. */
  datatype Stored = Stored(row: Row, payload: Text, hash: nat)

  ghost predicate Injective(hash: Text -> nat) {
    forall t, u :: hash(t) == hash(u) ==> t == u
  }

  datatype Verification = Verification(matches: bool, canonicalMatches: bool) {
    predicate IsValid() {
      matches && canonicalMatches
    }
  }

  function Verified(hash: Text -> nat, s: Stored): Verification {
    Verification(hash(s.payload) == s.hash, CanonicalPayload(s.row) == s.payload)
  }

  function Issued(hash: Text -> nat, row: Row): Stored {
    Stored(row.(status := ISSUED), CanonicalPayload(row.(status := ISSUED)),
           hash(CanonicalPayload(row.(status := ISSUED))))
  }

  class Register {
    const hash: Text -> nat
    var receipts: map<Text, Stored>

    constructor (hash: Text -> nat)
      ensures this.hash == hash && receipts == map[]
    {
      this.hash := hash;
      receipts := map[];
    }

    /** The receipt number is unique. */
    method CreateReceipt(row: Row) returns (done: Result<()>)
      modifies this
      ensures done.Failure? <==> row.receiptNumber in old(receipts)
      ensures receipts == if done.Failure? then old(receipts) else old(receipts)[row.receiptNumber := Issued(hash, row)]
    {
      if row.receiptNumber in receipts {
        return Failure(Conflict);
      }
      var candidate := row.(status := ISSUED);
      var payloadCanonical := CanonicalPayload(candidate);
      var verificationHash := hash(payloadCanonical);
      receipts := receipts[row.receiptNumber := Stored(candidate, payloadCanonical, verificationHash)];
      return Success(());
    }

    method VerifyReceipt(receiptNumber: Text) returns (result: Result<Verification>)
      ensures result == if receiptNumber in receipts then Success(Verified(hash, receipts[receiptNumber]))
                        else Failure(NotFound)
    {
      if receiptNumber !in receipts {
        return Failure(NotFound);
      }
      var row := receipts[receiptNumber];
      var recomputedHash := hash(row.payload);
      var rebuiltCanonical := CanonicalPayload(row.row);
      return Success(Verification(recomputedHash == row.hash, rebuiltCanonical == row.payload));
    }

    method VoidReceipt(receiptNumber: Text) returns (done: Result<()>)
      modifies this
      ensures done == if receiptNumber !in old(receipts) then Failure(NotFound)
                      else if old(receipts)[receiptNumber].row.status == VOID then Failure(InvalidState)
                      else Success(())
      ensures receipts == if done.Failure? then old(receipts)
                          else old(receipts)[receiptNumber := Voided(old(receipts)[receiptNumber])]
    {
      if receiptNumber !in receipts {
        return Failure(NotFound);
      }
      var stored := receipts[receiptNumber];
      if stored.row.status == VOID {
        return Failure(InvalidState);
      }
      receipts := receipts[receiptNumber := stored.(row := stored.row.(status := VOID))];
      return Success(());
    }
  }

  function Voided(s: Stored): Stored {
    s.(row := s.row.(status := VOID))
  }

  /**
   * What verification detects, for a receipt issued from `row` and found with any columns,
   * payload and the original hash: it is valid exactly when the payload is as issued and no
   * covered column was changed.
   */
  lemma ValidExactly(hash: Text -> nat, row: Row, found: Row, payload: Text)
    requires Injective(hash) && Measured(row) && Measured(found)
    ensures var issued := Issued(hash, row);
            var v := Verified(hash, Stored(found, payload, issued.hash));
            && (v.matches <==> payload == issued.payload)
            && (v.canonicalMatches && v.matches <==> payload == issued.payload && found == issued.row)
            && Verified(hash, issued).IsValid()
  {
    hide CanonicalPayload;
    PayloadCoversRow(found, row.(status := ISSUED));
  }

  /** Voiding keeps the hash check true and makes the receipt invalid. */
  lemma VoidedNeverValid(hash: Text -> nat, row: Row)
    requires Measured(row)
    ensures var v := Verified(hash, Voided(Issued(hash, row)));
            v.matches && !v.canonicalMatches && !v.IsValid()
  {
    hide CanonicalPayload;
    PayloadCoversRow(row.(status := VOID), row.(status := ISSUED));
  }

  // ---------------------------------------------------------------------- runs

  datatype Op = Create(row: Row) | Void(receiptNumber: Text)

  type Receipts = map<Text, Stored>

  function Apply(hash: Text -> nat, receipts: Receipts, op: Op): Receipts {
    match op
    case Create(row) =>
      if row.receiptNumber in receipts then receipts else receipts[row.receiptNumber := Issued(hash, row)]
    case Void(n) =>
      if n !in receipts || receipts[n].row.status == VOID then receipts else receipts[n := Voided(receipts[n])]
  }

  function Run(hash: Text -> nat, receipts: Receipts, ops: seq<Op>): Receipts {
    if ops == [] then receipts else Apply(hash, Run(hash, receipts, ops[..|ops| - 1]), ops[|ops| - 1])
  }

  /** Every receipt asked for has a percentage that prints as a number, if it has one. */
  predicate Printable(ops: seq<Op>) {
    forall k :: 0 <= k < |ops| && ops[k].Create? ==> Measured(ops[k].row)
  }

  /** A receipt as it was issued, voided or not. */
  ghost predicate Sound(hash: Text -> nat, s: Stored) {
    exists row :: Measured(row) && (s == Issued(hash, row) || s == Voided(Issued(hash, row)))
  }

  lemma SoundVerifies(hash: Text -> nat, s: Stored)
    requires Sound(hash, s)
    ensures Verified(hash, s).matches && (Verified(hash, s).IsValid() <==> s.row.status != VOID)
  {
    hide CanonicalPayload;
    var row :| Measured(row) && (s == Issued(hash, row) || s == Voided(Issued(hash, row)));
    VoidedNeverValid(hash, row);
  }

  ghost predicate AllSound(hash: Text -> nat, receipts: Receipts) {
    forall n :: n in receipts ==> Sound(hash, receipts[n])
  }

  lemma SoundByStep(hash: Text -> nat, receipts: Receipts, op: Op)
    requires AllSound(hash, receipts) && (op.Create? ==> Measured(op.row))
    ensures AllSound(hash, Apply(hash, receipts, op))
    ensures forall n :: n in receipts ==>
              && n in Apply(hash, receipts, op)
              && Apply(hash, receipts, op)[n]
                 == if op == Void(n) && receipts[n].row.status != VOID then Voided(receipts[n]) else receipts[n]
  {
    hide CanonicalPayload;
    match op
    case Create(row) => assert Sound(hash, Issued(hash, row));
    case Void(n) =>
      if n in receipts && receipts[n].row.status != VOID {
        var row :| Measured(row) && (receipts[n] == Issued(hash, row) || receipts[n] == Voided(Issued(hash, row)));
        assert Voided(receipts[n]) == Voided(Issued(hash, row));
        assert Sound(hash, Voided(receipts[n]));
      }
  }

  /** The run voids the receipt after some point. */
  predicate Voids(ops: seq<Op>, n: Text) {
    exists k :: 0 <= k < |ops| && ops[k] == Void(n)
  }

  /**
   * Over every run of creating and voiding, from an empty register or any sound one: the hash
   * of every stored receipt matches, it is valid exactly when it is not void, and a receipt
   * that was there before is void at the end exactly when it was void or the run voids it. No
   * later operation makes a void receipt valid again.
   */
  lemma {:induction false} ValidUntilVoided(hash: Text -> nat, receipts: Receipts, ops: seq<Op>, n: Text)
    requires AllSound(hash, receipts) && Printable(ops)
    ensures var after := Run(hash, receipts, ops);
            && AllSound(hash, after)
            && (n in after ==>
                  && Verified(hash, after[n]).matches
                  && (Verified(hash, after[n]).IsValid() <==> after[n].row.status != VOID))
            && (n in receipts ==>
                  n in after && (after[n].row.status == VOID <==> receipts[n].row.status == VOID || Voids(ops, n)))
  {
    hide Apply, Verified, Sound;
    if ops != [] {
      var before, op := ops[..|ops| - 1], ops[|ops| - 1];
      assert Printable(before) && (op.Create? ==> Measured(op.row));
      ValidUntilVoided(hash, receipts, before, n);
      SoundByStep(hash, Run(hash, receipts, before), op);
      assert Voids(ops, n) <==> Voids(before, n) || op == Void(n);
    }
    if n in Run(hash, receipts, ops) {
      SoundVerifies(hash, Run(hash, receipts, ops)[n]);
    }
  }
}
