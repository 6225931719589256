/** The newsletter mailing list: the members' and the complimentary
    recipients' addresses, as read from the CRM, become the rows of one CSV
    file under a fixed nine-column header. */
module MailingAddresses {
  import opened Common

  type Row = seq<string>

  const Header: Row := ["Addressee", "Street Address", "Supplemental Address 1", "City", "State",
                        "Postal Code", "Postal Code Suffix", "Country", "Supplemental Address 2"]

  /** The keys a member record is read under, column by column. */
  const MemberKeys: seq<string> := ["contact.addressee_display", "address.street_address",
    "address.supplemental_address_1", "address.city", "state_province.abbreviation",
    "address.postal_code", "address.postal_code_suffix", "country.name", "address.supplemental_address_2"]

  /** The keys a complimentary-copy record is read under: the addressee hangs
      off `contact_id` instead of `contact`. */
  const ComplimentaryKeys: seq<string> := ["contact_id.addressee_display", "address.street_address",
    "address.supplemental_address_1", "address.city", "state_province.abbreviation",
    "address.postal_code", "address.postal_code_suffix", "country.name", "address.supplemental_address_2"]

  /** A record lacked a key it is read under. */
  datatype MissingKey = MissingKey(key: string)

  /** The text the CSV writer puts in a cell: strings as they are, null as an
      empty cell, numbers in decimal, booleans as `True`/`False`. */
  function Cell(v: Value): (c: string)
    ensures match v
      case Str(s) => c == s
      case Nested(text) => c == text
      case Null => c == ""
      case Bool(b) => c == (if b then "True" else "False")
      case Num(n) =>
        if n >= 0 then (forall i :: 0 <= i < |c| ==> '0' <= c[i] <= '9') && DecimalValue(c) == n
        else
          && |c| >= 2 && c[0] == '-'
          && (forall i :: 1 <= i < |c| ==> '0' <= c[i] <= '9') && DecimalValue(c[1..]) == -n
  {
    match v
    case Str(s) => s
    case Null => ""
    case Num(n) => SignedDecimal(n)
    case Bool(b) => if b then "True" else "False"
    case Nested(text) => text
  }

  /** An integer in decimal, with a minus sign when negative; it reads back as the integer. */
  function SignedDecimal(n: int): (c: string)
    ensures n >= 0 ==> (forall i :: 0 <= i < |c| ==> '0' <= c[i] <= '9') && DecimalValue(c) == n
    ensures n < 0 ==>
      && |c| >= 2 && c[0] == '-'
      && (forall i :: 1 <= i < |c| ==> '0' <= c[i] <= '9') && DecimalValue(c[1..]) == -n
  {
    if n < 0 then
      DecimalRoundTrip(-n);
      var c := "-" + Decimal(-n);
      assert c[1..] == Decimal(-n);
      c
    else
      DecimalRoundTrip(n);
      Decimal(n)
  }

  /** One record's row: its values under `keys`, in order; the first key it
      lacks is the error. */
  function Project(record: Payload, keys: seq<string>): (r: Result<Row, MissingKey>)
    ensures r.Success? ==> |r.value| == |keys|
    ensures r.Failure? ==> r.error.key in keys && r.error.key !in record
    decreases |keys|
  {
    if keys == [] then Success([])
    else
      match Project(record, keys[..|keys| - 1])
      case Failure(e) => Failure(e)
      case Success(row) =>
        var key := keys[|keys| - 1];
        if key in record then Success(row + [Cell(record[key])]) else Failure(MissingKey(key))
  }

  /** The rows of a group of records, in order; the first record that lacks a key fails them all. */
  function ProjectAll(records: seq<Payload>, keys: seq<string>): (r: Result<seq<Row>, MissingKey>)
    ensures r.Success? ==> |r.value| == |records|
    ensures r.Failure? ==> r.error.key in keys
    decreases |records|
  {
    if records == [] then Success([])
    else
      match ProjectAll(records[..|records| - 1], keys)
      case Failure(e) => Failure(e)
      case Success(rows) =>
        match Project(records[|records| - 1], keys)
        case Failure(e) => Failure(e)
        case Success(row) => Success(rows + [row])
  }

  /** The whole file as rows: the header, the members' rows, then the complimentary rows. */
  function AddressRows(members: seq<Payload>, complimentary: seq<Payload>): (r: Result<seq<Row>, MissingKey>)
    ensures r.Success? ==> |r.value| == 1 + |members| + |complimentary| && r.value[0] == Header
    ensures r.Failure? ==> r.error.key in MemberKeys || r.error.key in ComplimentaryKeys
  {
    match ProjectAll(members, MemberKeys)
    case Failure(e) => Failure(e)
    case Success(memberRows) =>
      match ProjectAll(complimentary, ComplimentaryKeys)
      case Failure(e) => Failure(e)
      case Success(complimentaryRows) => Success([Header] + memberRows + complimentaryRows)
  }

  /** The output buffer the CSV writer appends rows to. */
  class CsvBuffer {
    var rows: seq<Row>

    constructor ()
      ensures rows == []
    {
      rows := [];
    }

    method WriteRow(row: Row)
      modifies this
      ensures rows == old(rows) + [row]
    {
      rows := rows + [row];
    }
  }

  /** `getTCLAllAddressesCSV`: the header, then a row per member, then a row
      per complimentary copy, written one after another. */
  method AllAddressesCsv(members: seq<Payload>, complimentary: seq<Payload>) returns (r: Result<seq<Row>, MissingKey>)
    ensures r == AddressRows(members, complimentary)
  {
    var out := new CsvBuffer();
    out.WriteRow(Header);
    var memberCount, memberFailure := WriteGroup(out, members, MemberKeys);
    if memberFailure.Some? {
      return Failure(memberFailure.value);
    }
    assert members[..memberCount] == members;
    ghost var memberRows := ProjectAll(members, MemberKeys).value;
    assert out.rows == [Header] + memberRows;
    var complimentaryCount, complimentaryFailure := WriteGroup(out, complimentary, ComplimentaryKeys);
    if complimentaryFailure.Some? {
      return Failure(complimentaryFailure.value);
    }
    assert complimentary[..complimentaryCount] == complimentary;
    r := Success(out.rows);
  }

  /** One of the two loops: writes a row per record, in order, until a record
      lacks a key; `written` records were written, and the group's rows are
      a failure exactly when one was missing. */
  method WriteGroup(out: CsvBuffer, records: seq<Payload>, keys: seq<string>) returns (written: nat, failed: Option<MissingKey>)
    modifies out
    ensures written <= |records|
    ensures ProjectAll(records[..written], keys).Success?
    ensures out.rows == old(out.rows) + ProjectAll(records[..written], keys).value
    ensures failed.None? ==> written == |records|
    ensures ProjectAll(records, keys) == (if failed.Some? then Failure(failed.value) else ProjectAll(records[..written], keys))
  {
    ghost var before := out.rows;
    for i := 0 to |records|
      invariant ProjectAll(records[..i], keys).Success?
      invariant out.rows == before + ProjectAll(records[..i], keys).value
    {
      assert records[..i + 1][..i] == records[..i];
      var row := Project(records[i], keys);
      if row.Failure? {
        FailureSticks(records, i + 1, keys);
        return i, Some(row.error);
      }
      out.WriteRow(row.value);
    }
    assert records[..|records|] == records;
    return |records|, None;
  }

  // ---------------------------------------------------------------------------
  // Properties

  /** Once the first `n` records fail, the whole group fails with the same error. */
  lemma {:induction false} FailureSticks(records: seq<Payload>, n: nat, keys: seq<string>)
    requires n <= |records|
    requires ProjectAll(records[..n], keys).Failure?
    ensures ProjectAll(records, keys) == ProjectAll(records[..n], keys)
    decreases |records| - n
  {
    if n < |records| {
      assert records[..|records| - 1][..n] == records[..n];
      FailureSticks(records[..|records| - 1], n, keys);
    } else {
      assert records[..n] == records;
    }
  }

  /** A row holds, column by column, the record's values under the keys, and
      it exists exactly when the record has every key. */
  lemma {:induction false} ProjectExact(record: Payload, keys: seq<string>)
    ensures Project(record, keys).Success? <==> forall k :: 0 <= k < |keys| ==> keys[k] in record
    ensures Project(record, keys).Success? ==>
      |Project(record, keys).value| == |keys|
      && forall k :: 0 <= k < |keys| ==> Project(record, keys).value[k] == Cell(record[keys[k]])
    decreases |keys|
  {
    if keys != [] {
      var init := keys[..|keys| - 1];
      ProjectExact(record, init);
      assert forall k :: 0 <= k < |init| ==> init[k] == keys[k];
    }
  }

  /** The group's rows are its records' rows, one per record, in order, and
      they exist exactly when every record has every key. */
  lemma {:induction false} ProjectAllExact(records: seq<Payload>, keys: seq<string>)
    ensures ProjectAll(records, keys).Success? <==> forall i :: 0 <= i < |records| ==> Project(records[i], keys).Success?
    ensures ProjectAll(records, keys).Success? ==>
      |ProjectAll(records, keys).value| == |records|
      && forall i :: 0 <= i < |records| ==> ProjectAll(records, keys).value[i] == Project(records[i], keys).value
    decreases |records|
  {
    if records != [] {
      var init := records[..|records| - 1];
      ProjectAllExact(init, keys);
      assert forall i :: 0 <= i < |init| ==> init[i] == records[i];
    }
  }

  /** The two groups are read under the same keys except the addressee, and
      the State column is the state's abbreviation. */
  lemma KeysDifferOnlyInAddressee()
    ensures |MemberKeys| == |ComplimentaryKeys| == |Header| == 9
    ensures MemberKeys[0] == "contact.addressee_display" && ComplimentaryKeys[0] == "contact_id.addressee_display"
    ensures MemberKeys[1..] == ComplimentaryKeys[1..]
    ensures Header[4] == "State" && MemberKeys[4] == "state_province.abbreviation"
  {
  }

  /** A group's rows are, record by record and column by column, the records'
      values under the keys; they exist exactly when no record lacks a key. */
  lemma GroupRows(records: seq<Payload>, keys: seq<string>)
    ensures ProjectAll(records, keys).Success?
      <==> forall i, k :: 0 <= i < |records| && 0 <= k < |keys| ==> keys[k] in records[i]
    ensures ProjectAll(records, keys).Success? ==>
      var rows := ProjectAll(records, keys).value;
      && |rows| == |records|
      && (forall i :: 0 <= i < |rows| ==> |rows[i]| == |keys|)
      && (forall i, k :: 0 <= i < |records| && 0 <= k < |keys| ==> rows[i][k] == Cell(records[i][keys[k]]))
  {
    ProjectAllExact(records, keys);
    forall i | 0 <= i < |records| {
      ProjectExact(records[i], keys);
    }
  }

  /** The file is the header, one nine-field row per member, then one
      nine-field row per complimentary copy, each row the record's values in
      the header's column order; it is produced exactly when no record lacks
      a key. */
  lemma AddressRowsShape(members: seq<Payload>, complimentary: seq<Payload>)
    ensures AddressRows(members, complimentary).Success? <==>
      && (forall i, k :: 0 <= i < |members| && 0 <= k < 9 ==> MemberKeys[k] in members[i])
      && (forall j, k :: 0 <= j < |complimentary| && 0 <= k < 9 ==> ComplimentaryKeys[k] in complimentary[j])
    ensures AddressRows(members, complimentary).Success? ==>
      var rows := AddressRows(members, complimentary).value;
      && |rows| == 1 + |members| + |complimentary|
      && rows[0] == Header
      && (forall i :: 0 <= i < |rows| ==> |rows[i]| == 9)
      && (forall i, k :: 0 <= i < |members| && 0 <= k < 9 ==> rows[1 + i][k] == Cell(members[i][MemberKeys[k]]))
      && (forall j, k :: 0 <= j < |complimentary| && 0 <= k < 9 ==>
            rows[1 + |members| + j][k] == Cell(complimentary[j][ComplimentaryKeys[k]]))
  {
    GroupRows(members, MemberKeys);
    GroupRows(complimentary, ComplimentaryKeys);
    var m := ProjectAll(members, MemberKeys);
    var c := ProjectAll(complimentary, ComplimentaryKeys);
    if m.Success? && c.Success? {
      AddressRowsJoin(members, complimentary);
      JoinIndex(m.value, c.value);
      KeysDifferOnlyInAddressee();
      JoinWidth(m.value, c.value, 9);
    }
  }

  /** With both groups projected, the file is the header and the two groups' rows. */
  lemma AddressRowsJoin(members: seq<Payload>, complimentary: seq<Payload>)
    requires ProjectAll(members, MemberKeys).Success? && ProjectAll(complimentary, ComplimentaryKeys).Success?
    ensures AddressRows(members, complimentary)
      == Success([Header] + ProjectAll(members, MemberKeys).value + ProjectAll(complimentary, ComplimentaryKeys).value)
  {
  }

  lemma JoinWidth(m: seq<Row>, c: seq<Row>, width: nat)
    requires |Header| == width
    requires forall i :: 0 <= i < |m| ==> |m[i]| == width
    requires forall j :: 0 <= j < |c| ==> |c[j]| == width
    ensures forall i :: 0 <= i < |[Header] + m + c| ==> |([Header] + m + c)[i]| == width
  {
  }

  lemma JoinIndex(m: seq<Row>, c: seq<Row>)
    ensures forall i :: 0 <= i < |m| ==> ([Header] + m + c)[1 + i] == m[i]
    ensures forall j :: 0 <= j < |c| ==> ([Header] + m + c)[1 + |m| + j] == c[j]
  {
  }
}
