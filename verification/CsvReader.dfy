/**
 Reading a file row by row: the sequence numbers given to its messages, and where reading stops.
 */
module CsvReader {
  import opened Domain
  import opened Amount
  import opened AmountLaws

  /** The fields of a row as text, already trimmed; `Unreadable` where the tokenizer failed. */
  datatype Record = Fields(kind: string, client: string, tx: string, amount: string) | Unreadable

  datatype Item = Message(message: InputMessage) | Failure | Crash | EndOfFile

  function TypeFromText(s: string): Option<TransactionType> {
    match s
    case "deposit" => Some(Deposit)
    case "withdrawal" => Some(Withdrawal)
    case "dispute" => Some(Dispute)
    case "resolve" => Some(Resolve)
    case "chargeback" => Some(Chargeback)
    case _ => None
  }

  /** An unsigned integer below `bound`: at least one digit, possibly after a plus sign. */
  function ParseUnsigned(s: string, bound: nat): (n: Option<nat>)
    ensures n.Some? ==> n.value < bound
  {
    var digits := if s != "" && s[0] == '+' then s[1..] else s;
    if digits == "" || !AllDigits(digits) || Value(digits) >= bound then None else Some(Value(digits))
  }

  /** An empty amount counts as zero. */
  function ReadAmount(build: Build, s: string): Reading {
    if s == "" then Amount(0) else Parse(build, s)
  }

  function Decode(build: Build, r: Record, chronoOrder: nat): Item {
    if r.Unreadable? then Failure
    else
      match (TypeFromText(r.kind), ParseUnsigned(r.client, 0x1_0000), ParseUnsigned(r.tx, 0x1_0000_0000))
      case (Some(kind), Some(client), Some(tx)) =>
        (match ReadAmount(build, r.amount)
         case Amount(v) => Message(InputMessage(chronoOrder, kind, client, tx, v))
         case Error => Failure
         case Panic => Crash)
      case _ => Failure
  }

  // Which rows are which messages

  /** The five words for the operations; no other word is one. */
  lemma FiveWords(s: string)
    ensures TypeFromText(s) == Some(Deposit) <==> s == "deposit"
    ensures TypeFromText(s) == Some(Withdrawal) <==> s == "withdrawal"
    ensures TypeFromText(s) == Some(Dispute) <==> s == "dispute"
    ensures TypeFromText(s) == Some(Resolve) <==> s == "resolve"
    ensures TypeFromText(s) == Some(Chargeback) <==> s == "chargeback"
    ensures TypeFromText(s) == None <==> s !in {"deposit", "withdrawal", "dispute", "resolve", "chargeback"}
  {}

  ghost predicate Word(s: string, t: TransactionType) {
    || (s == "deposit" && t == Deposit)
    || (s == "withdrawal" && t == Withdrawal)
    || (s == "dispute" && t == Dispute)
    || (s == "resolve" && t == Resolve)
    || (s == "chargeback" && t == Chargeback)
  }

  /** `s` writes the number `n`: digits, possibly after a plus sign. */
  ghost predicate Spells(s: string, n: nat) {
    || (s != "" && AllDigits(s) && Value(s) == n)
    || (1 < |s| && s[0] == '+' && AllDigits(s[1..]) && Value(s[1..]) == n)
  }

  lemma ParseUnsignedSpells(s: string, bound: nat, n: nat)
    ensures ParseUnsigned(s, bound) == Some(n) <==> n < bound && Spells(s, n)
  {}

  /** The amount of a row: zero if the field is empty, and otherwise what its text is read as. */
  ghost predicate AmountOf(build: Build, s: string, v: int) {
    if s == "" then v == 0 else Parse(build, s) == Amount(v)
  }

  /** A row has a known operation and two identifiers in range. */
  ghost predicate Addressed(r: Record, kind: TransactionType, client: nat, tx: nat) {
    && r.Fields? && Word(r.kind, kind)
    && client <= 65_535 && Spells(r.client, client)
    && tx <= 4_294_967_295 && Spells(r.tx, tx)
  }

  lemma AddressedDecode(build: Build, r: Record, n: nat, kind: TransactionType, client: nat, tx: nat)
    requires Addressed(r, kind, client, tx)
    ensures Decode(build, r, n) ==
            match (if r.amount == "" then Amount(0) else Parse(build, r.amount))
            case Amount(v) => Message(InputMessage(n, kind, client, tx, v))
            case Error => Failure
            case Panic => Crash
  {
    FiveWords(r.kind);
    ParseUnsignedSpells(r.client, 0x1_0000, client);
    ParseUnsignedSpells(r.tx, 0x1_0000_0000, tx);
  }

  lemma UnaddressedDecode(build: Build, r: Record, n: nat)
    requires Decode(build, r, n) != Failure
    ensures exists kind, client: nat, tx: nat :: Addressed(r, kind, client, tx)
  {
    FiveWords(r.kind);
    var kind := TypeFromText(r.kind).value;
    var client, tx := ParseUnsigned(r.client, 0x1_0000).value, ParseUnsigned(r.tx, 0x1_0000_0000).value;
    ParseUnsignedSpells(r.client, 0x1_0000, client);
    ParseUnsignedSpells(r.tx, 0x1_0000_0000, tx);
    assert Addressed(r, kind, client, tx);
  }

  /** Exactly which row is which message. */
  lemma RowsOfMessages(build: Build, r: Record, n: nat, m: InputMessage)
    ensures Decode(build, r, n) == Message(m) <==>
            && m.chronoOrder == n
            && Addressed(r, m.transactionType, m.clientId, m.transactionId)
            && AmountOf(build, r.amount, m.amount)
  {
    if Decode(build, r, n) == Message(m) {
      UnaddressedDecode(build, r, n);
      var kind, client: nat, tx: nat :| Addressed(r, kind, client, tx);
      AddressedDecode(build, r, n, kind, client, tx);
    }
    if Addressed(r, m.transactionType, m.clientId, m.transactionId) && AmountOf(build, r.amount, m.amount) {
      AddressedDecode(build, r, n, m.transactionType, m.clientId, m.transactionId);
    }
  }

  /** Every other row fails, or stops the program on an overflowing amount; no row passes for the end of the file. */
  lemma RowsWithoutMessage(build: Build, r: Record, n: nat)
    ensures Decode(build, r, n) == Crash <==>
            && (exists kind, client: nat, tx: nat :: Addressed(r, kind, client, tx))
            && r.amount != "" && Parse(build, r.amount) == Panic
    ensures Decode(build, r, n) == Failure <==>
            || !(exists kind, client: nat, tx: nat :: Addressed(r, kind, client, tx))
            || (r.amount != "" && Parse(build, r.amount) == Error)
    ensures Decode(build, r, n) != EndOfFile
  {
    if kind, client: nat, tx: nat :| Addressed(r, kind, client, tx) {
      AddressedDecode(build, r, n, kind, client, tx);
    } else if Decode(build, r, n) != Failure {
      UnaddressedDecode(build, r, n);
    }
  }

  /** An empty amount is zero, whatever the operation. */
  lemma EmptyAmount(build: Build, r: Record, n: nat, m: InputMessage)
    requires Addressed(r, m.transactionType, m.clientId, m.transactionId) && r.amount == ""
    requires m.chronoOrder == n && m.amount == 0
    ensures Decode(build, r, n) == Message(m)
  {
    RowsOfMessages(build, r, n, m);
  }

  // A message written out as a row

  function TypeText(t: TransactionType): string {
    match t
    case Deposit => "deposit"
    case Withdrawal => "withdrawal"
    case Dispute => "dispute"
    case Resolve => "resolve"
    case Chargeback => "chargeback"
  }

  function Encode(m: InputMessage): Record {
    Fields(TypeText(m.transactionType), DecimalDigits(m.clientId), DecimalDigits(m.transactionId), Display(m.amount))
  }

  lemma ParseUnsignedDigits(n: nat, bound: nat)
    requires n < bound
    ensures ParseUnsigned(DecimalDigits(n), bound) == Some(n)
  {
    assert IsDigit(DecimalDigits(n)[0]);
  }

  lemma TypeRoundTrip(t: TransactionType)
    ensures TypeFromText(TypeText(t)) == Some(t)
  {}

  lemma ReadAmountDisplay(build: Build, v: int)
    ensures ReadAmount(build, Display(v)) == if InI64(v) then Amount(v) else Error
  {
    RoundTrip(build, v);
    DisplayExact(v);
    assert Display(v) != "";
  }

  lemma DecodeParts(build: Build, r: Record, n: nat, kind: TransactionType, client: nat, tx: nat)
    requires r.Fields? && TypeFromText(r.kind) == Some(kind)
    requires ParseUnsigned(r.client, 0x1_0000) == Some(client)
    requires ParseUnsigned(r.tx, 0x1_0000_0000) == Some(tx)
    ensures client < 0x1_0000 && tx < 0x1_0000_0000
    ensures Decode(build, r, n) ==
            match ReadAmount(build, r.amount)
            case Amount(v) => Message(InputMessage(n, kind, client, tx, v))
            case Error => Failure
            case Panic => Crash
  {}

  /** A written message is read back whole if its amount fits 64 bits, and fails otherwise. */
  lemma DecodeInvertsEncode(build: Build, m: InputMessage)
    ensures Decode(build, Encode(m), m.chronoOrder) == if InI64(m.amount) then Message(m) else Failure
  {
    TypeRoundTrip(m.transactionType);
    ParseUnsignedDigits(m.clientId, 0x1_0000);
    ParseUnsignedDigits(m.transactionId, 0x1_0000_0000);
    ReadAmountDisplay(build, m.amount);
    DecodeParts(build, Encode(m), m.chronoOrder, m.transactionType, m.clientId, m.transactionId);
  }

  /** A row whose amount overflows stops a debug build, and deposits 0.8384 in a release build. */
  lemma OverflowingRow(n: nat, amount: string)
    requires amount == "1844674407370956"
    ensures var row := Fields("deposit", "1", "1", amount);
            && Decode(Debug, row, n) == Crash
            && Decode(Release, row, n) == Message(InputMessage(n, Deposit, 1, 1, 8384))
  {
    var row := Fields("deposit", "1", "1", amount);
    OverflowWitness(Debug, amount);
    assert DecimalDigits(1) == "1";
    ParseUnsignedDigits(1, 0x1_0000);
    ParseUnsignedDigits(1, 0x1_0000_0000);
    DecodeParts(Debug, row, n, Deposit, 1, 1);
    DecodeParts(Release, row, n, Deposit, 1, 1);
  }

  // Reading on

  /** Decodes a record, given the sequence number it is to have. */
  type Decoder = (Record, nat) -> Item

  function DecoderOf(build: Build): Decoder {
    (r: Record, n: nat) => Decode(build, r, n)
  }

  /** The messages up to the first row that fails, if any, and how reading ended. */
  datatype Loaded = Loaded(messages: seq<InputMessage>, last: Item)

  function Load(decode: Decoder, records: seq<Record>, chronoOrder: nat): Loaded
    decreases |records|
  {
    if records == [] then Loaded([], EndOfFile)
    else
      var item := decode(records[0], chronoOrder);
      if item.Message? then
        var rest := Load(decode, records[1..], chronoOrder + 1);
        Loaded([item.message] + rest.messages, rest.last)
      else Loaded([], item)
  }

  /** The messages are the first rows, each decoded with its own number. */
  lemma {:induction false} LoadDecodesRows(decode: Decoder, records: seq<Record>, chronoOrder: nat)
    ensures var ms := Load(decode, records, chronoOrder).messages;
            && |ms| <= |records|
            && forall i | 0 <= i < |ms| :: decode(records[i], chronoOrder + i) == Message(ms[i])
    decreases |records|
  {
    if records != [] && decode(records[0], chronoOrder).Message? {
      var ms, ns := Load(decode, records, chronoOrder).messages, Load(decode, records[1..], chronoOrder + 1).messages;
      LoadDecodesRows(decode, records[1..], chronoOrder + 1);
      forall i | 0 <= i < |ms| ensures decode(records[i], chronoOrder + i) == Message(ms[i]) {
        if i != 0 {
          assert decode(records[1..][i - 1], chronoOrder + 1 + (i - 1)) == Message(ns[i - 1]);
        }
      }
    }
  }

  /** Reading ends after all rows, or at the first that fails, with its failure. */
  lemma {:induction false} LoadEnds(decode: Decoder, records: seq<Record>, chronoOrder: nat)
    requires forall r, n :: decode(r, n) != EndOfFile
    ensures var l := Load(decode, records, chronoOrder);
            var n := |l.messages|;
            && n <= |records|
            && (l.last == EndOfFile <==> n == |records|)
            && (n < |records| ==> l.last == decode(records[n], chronoOrder + n) && !l.last.Message?)
    decreases |records|
  {
    if records != [] && decode(records[0], chronoOrder).Message? {
      LoadEnds(decode, records[1..], chronoOrder + 1);
    }
  }

  /** The sequence numbers of a file count its rows from zero. */
  lemma NumberedFromZero(build: Build, records: seq<Record>)
    ensures var ms := Load(DecoderOf(build), records, 0).messages;
            forall i | 0 <= i < |ms| :: ms[i].chronoOrder == i
  {
    LoadDecodesRows(DecoderOf(build), records, 0);
    var ms := Load(DecoderOf(build), records, 0).messages;
    forall i | 0 <= i < |ms| ensures ms[i].chronoOrder == i {
      assert Decode(build, records[i], 0 + i) == Message(ms[i]);
    }
  }

  class CsvReader {
    const decode: Decoder
    // What the tokenizer still has to deliver.
    var records: seq<Record>
    var chronoOrder: nat
    var done: bool

    constructor (build: Build, records: seq<Record>)
      ensures decode == DecoderOf(build) && forall r, n :: decode(r, n) == Decode(build, r, n)
      ensures this.records == records && chronoOrder == 0 && !done
    {
      decode, this.records := DecoderOf(build), records;
      chronoOrder, done := 0, false;
    }

    /** Only a row that decodes uses up a sequence number. */
    method Next() returns (item: Item)
      modifies this
      ensures old(done) || old(records) == [] ==>
                item == EndOfFile && done && records == old(records) && chronoOrder == old(chronoOrder)
      ensures !old(done) && old(records) != [] ==>
                && !done && records == old(records)[1..]
                && item == decode(old(records)[0], old(chronoOrder))
                && chronoOrder == old(chronoOrder) + if item.Message? then 1 else 0
    {
      if done {
        return EndOfFile;
      }
      if records == [] {
        done := true;
        return EndOfFile;
      }
      var record := records[0];
      records := records[1..];
      item := decode(record, chronoOrder);
      if item.Message? {
        chronoOrder := chronoOrder + 1;
      }
    }
  }

  /**
   What loading a file must deliver: its first rows, each decoded with its own number, and how it
   ended: after the last row, or at the first row that is no message, with the failure of that row.
   */
  ghost predicate LoadedFrom(build: Build, records: seq<Record>, messages: seq<InputMessage>, last: Item) {
    && |messages| <= |records|
    && (forall i | 0 <= i < |messages| :: Decode(build, records[i], i) == Message(messages[i]))
    && if |messages| == |records| then last == EndOfFile
       else !last.Message? && last == Decode(build, records[|messages|], |messages|)
  }

  lemma LoadIsLoadedFrom(build: Build, records: seq<Record>)
    ensures var l := Load(DecoderOf(build), records, 0); LoadedFrom(build, records, l.messages, l.last)
  {
    var l := Load(DecoderOf(build), records, 0);
    LoadDecodesRows(DecoderOf(build), records, 0);
    forall r, n ensures DecoderOf(build)(r, n) == Decode(build, r, n) != EndOfFile {
      RowsWithoutMessage(build, r, n);
    }
    LoadEnds(DecoderOf(build), records, 0);
    forall i | 0 <= i < |l.messages| ensures Decode(build, records[i], i) == Message(l.messages[i]) {
      assert DecoderOf(build)(records[i], 0 + i) == Message(l.messages[i]);
    }
  }

  /** Nothing else can be delivered. */
  lemma LoadedFromUnique(build: Build, records: seq<Record>, ms: seq<InputMessage>, last: Item,
                         ns: seq<InputMessage>, end: Item)
    requires LoadedFrom(build, records, ms, last) && LoadedFrom(build, records, ns, end)
    ensures ms == ns && last == end
  {
    forall i | 0 <= i < |ms| && i < |ns| ensures ms[i] == ns[i] {
      assert Decode(build, records[i], i) == Message(ms[i]) == Message(ns[i]);
    }
  }

  function EncodeAll(ms: seq<InputMessage>): seq<Record> {
    seq(|ms|, i requires 0 <= i < |ms| => Encode(ms[i]))
  }

  /** Messages numbered from zero survive being written to a file and loaded if and only if their amounts fit 64 bits. */
  lemma FileRoundTrip(build: Build, ms: seq<InputMessage>)
    requires forall i | 0 <= i < |ms| :: ms[i].chronoOrder == i
    ensures LoadedFrom(build, EncodeAll(ms), ms, EndOfFile) <==> forall i | 0 <= i < |ms| :: InI64(ms[i].amount)
  {
    forall i | 0 <= i < |ms|
      ensures Decode(build, EncodeAll(ms)[i], i) == Message(ms[i]) <==> InI64(ms[i].amount)
    {
      DecodeInvertsEncode(build, ms[i]);
    }
  }

  /** Reads until the file ends or a row fails. */
  method LoadFile(build: Build, records: seq<Record>) returns (messages: seq<InputMessage>, last: Item)
    ensures Loaded(messages, last) == Load(DecoderOf(build), records, 0)
    ensures LoadedFrom(build, records, messages, last)
  {
    var reader := new CsvReader(build, records);
    messages, last := ReadAll(reader);
    LoadIsLoadedFrom(build, records);
  }

  method ReadAll(reader: CsvReader) returns (messages: seq<InputMessage>, last: Item)
    requires !reader.done
    modifies reader
    ensures Loaded(messages, last) == Load(reader.decode, old(reader.records), old(reader.chronoOrder))
  {
    messages := [];
    ghost var rest := Load(reader.decode, reader.records, reader.chronoOrder);
    while true
      invariant !reader.done
      invariant rest == Load(reader.decode, reader.records, reader.chronoOrder)
      invariant Load(reader.decode, old(reader.records), old(reader.chronoOrder)) ==
                Loaded(messages + rest.messages, rest.last)
      decreases |reader.records|
    {
      var item := reader.Next();
      if !item.Message? {
        assert messages + [] == messages;
        return messages, item;
      }
      rest := Load(reader.decode, reader.records, reader.chronoOrder);
      assert messages + ([item.message] + rest.messages) == messages + [item.message] + rest.messages;
      messages := messages + [item.message];
    }
  }
}
