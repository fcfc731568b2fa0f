/**
 * The contact normaliser: parsed CSV rows of a contact export become contact
 * records (a name, its e-mail addresses and its phone numbers), and contact
 * records become flat records ready to be written back as CSV.
 *
 * The e-mail and phone columns are found once, from the keys of the first
 * row. Every row is then mapped on its own: the values of those columns are
 * collected in column order (a cell may hold several values separated by
 * `:::`), phone numbers are cleaned and put in international form, and both
 * lists are deduplicated keeping first occurrences.
 */
module ContactCsv {
  import opened Seqs
  import opened Text
  import opened Phone

  datatype Option<T> = None | Some(value: T)

  datatype Result<T, E> = Success(value: T) | Failure(error: E)

  /**
   * One parsed data row, as the JavaScript object the CSV parser builds:
   * its keys in `Object.keys` order (column order, except that integer-like
   * column names come first, in ascending numeric order) and the cell of
   * each key.
   */
  datatype Record = Record(keys: seq<string>, cells: map<string, string>)

  /** A normalised contact. */
  datatype Contact = Contact(name: string, emails: seq<string>, phones: seq<string>)

  /** A contact with its lists flattened into strings, one output CSV line. */
  datatype FlatContact = FlatContact(name: string, emails: string, phones: string)

  /**
   * Reading data with no row fails: the column search asks for the keys of
   * the first row, which does not exist (a TypeError in JavaScript).
   */
  datatype ReadError = NoFirstRow

  const MultiValueSeparator: string := ":::"
  const ExportSeparator: string := " , "
  const EmailLabel: string := "E-mail"
  const PhoneLabel: string := "Phone"
  const ValueSuffix: string := " - Value"

  /** Every row has a `Name` cell. */
  predicate NamesPresent(rows: seq<Record>)
  {
    forall i :: 0 <= i < |rows| ==> "Name" in rows[i].cells
  }

  // ---------------------------------------------------------------------
  // Column detection
  // ---------------------------------------------------------------------

  /**
   * The column-name pattern `<stem>\s\d - Value` matches `key` at position
   * `i`: the stem, one whitespace character, one decimal digit, then
   * ` - Value`.
   */
  predicate FieldPatternAt(key: string, stem: string, i: nat)
  {
    var n := |stem|;
    i + n + 2 + |ValueSuffix| <= |key|
    && key[i..i + n] == stem
    && IsJsWhitespace(key[i + n])
    && IsDigit(key[i + n + 1])
    && key[i + n + 2..i + n + 2 + |ValueSuffix|] == ValueSuffix
  }

  /** The regular expression test: the pattern occurs anywhere in `key` (it is not anchored). */
  predicate MatchesFieldPattern(key: string, stem: string)
  {
    exists i: nat | i <= |key| :: FieldPatternAt(key, stem, i)
  }

  /**
   * `keys.filter(key => pattern.test(key))`: the keys that match the column
   * pattern, in key order.
   */
  function FieldsMatching(keys: seq<string>, stem: string): (fields: seq<string>)
    ensures IsSubsequence(fields, keys)
    ensures forall i :: 0 <= i < |fields| ==> MatchesFieldPattern(fields[i], stem)
    ensures forall i :: 0 <= i < |keys| && MatchesFieldPattern(keys[i], stem) ==> keys[i] in fields
    decreases |keys|
  {
    if keys == [] then []
    else
      var init := keys[..|keys| - 1];
      var last := keys[|keys| - 1];
      var kept := FieldsMatching(init, stem);
      assert keys == init + [last];
      if MatchesFieldPattern(last, stem) then
        SubsequenceAppendBoth(kept, init, last);
        kept + [last]
      else
        SubsequenceExtend(kept, init, last);
        kept
  }

  /** Filtering keeps every matching key as often as it occurs, and no other key. */
  lemma {:induction false} FieldsMatchingCounts(keys: seq<string>, stem: string)
    ensures forall k :: multiset(FieldsMatching(keys, stem))[k]
                        == if MatchesFieldPattern(k, stem) then multiset(keys)[k] else 0
    decreases |keys|
  {
    if keys != [] {
      var init := keys[..|keys| - 1];
      var last := keys[|keys| - 1];
      FieldsMatchingCounts(init, stem);
      assert keys == init + [last];
      assert multiset(keys) == multiset(init) + multiset{last};
    }
  }

  /** Filtering keeps the order of concatenated key lists. */
  lemma {:induction false} FieldsMatchingConcat(a: seq<string>, b: seq<string>, stem: string)
    ensures FieldsMatching(a + b, stem) == FieldsMatching(a, stem) + FieldsMatching(b, stem)
    decreases |b|
  {
    if b == [] {
      assert a + b == a;
    } else {
      var binit := b[..|b| - 1];
      FieldsMatchingConcat(a, binit, stem);
      assert (a + b)[..|a + b| - 1] == a + binit;
      assert (a + b)[|a + b| - 1] == b[|b| - 1];
    }
  }

  /** The name of an e-mail column of a contact export, numbered by the digit `d`. */
  function EmailColumn(d: char): string
  {
    EmailLabel + " " + [d] + ValueSuffix
  }

  /** An e-mail column name matches the e-mail pattern and not the phone pattern. */
  lemma EmailColumnDetected(d: char)
    requires IsDigit(d)
    ensures MatchesFieldPattern(EmailColumn(d), EmailLabel)
    ensures !MatchesFieldPattern(EmailColumn(d), PhoneLabel)
  {
    var key := EmailColumn(d);
    assert FieldPatternAt(key, EmailLabel, 0);
    assert key[0] == 'E' && key[1] == '-';
    forall i: nat | i <= |key|
      ensures !FieldPatternAt(key, PhoneLabel, i)
    {
      if i + |PhoneLabel| + 2 + |ValueSuffix| <= |key| {
        assert key[i..i + |PhoneLabel|][0] == key[i];
      }
    }
  }

  /** A header `Name`, then two e-mail columns, yields both e-mail columns in header order and no phone column. */
  lemma FieldsMatchingExample(d1: char, d2: char)
    requires IsDigit(d1) && IsDigit(d2)
    ensures FieldsMatching(["Name", EmailColumn(d1), EmailColumn(d2)], EmailLabel) == [EmailColumn(d1), EmailColumn(d2)]
    ensures FieldsMatching(["Name", EmailColumn(d1), EmailColumn(d2)], PhoneLabel) == []
  {
    var e1 := EmailColumn(d1);
    var e2 := EmailColumn(d2);
    EmailColumnDetected(d1);
    EmailColumnDetected(d2);
    assert !MatchesFieldPattern("Name", EmailLabel);
    assert !MatchesFieldPattern("Name", PhoneLabel);
    assert ["Name", e1, e2] == ["Name"] + [e1] + [e2];
    FieldsMatchingConcat(["Name"] + [e1], [e2], EmailLabel);
    FieldsMatchingConcat(["Name"], [e1], EmailLabel);
    FieldsMatchingConcat(["Name"] + [e1], [e2], PhoneLabel);
    FieldsMatchingConcat(["Name"], [e1], PhoneLabel);
  }

  // ---------------------------------------------------------------------
  // Multi-value extraction
  // ---------------------------------------------------------------------

  /**
   * What one column contributes: nothing when the cell is missing or empty;
   * the pieces between `:::` separators, each with all its whitespace
   * removed, when the cell has a separator; otherwise the cell as it is.
   */
  function CellValues(row: map<string, string>, field: string): (vals: seq<string>)
    ensures vals != [] <==> field in row && row[field] != ""
  {
    if field !in row || row[field] == "" then []
    else if Includes(row[field], MultiValueSeparator) then
      RemoveEach(Split(row[field], MultiValueSeparator), IsJsWhitespace)
    else [row[field]]
  }

  /** A missing or empty cell contributes nothing. */
  lemma CellValuesSkipsEmpty(row: map<string, string>, field: string)
    requires field !in row || row[field] == ""
    ensures CellValues(row, field) == []
  {
  }

  /** A non-empty cell without `:::` contributes itself, untrimmed. */
  lemma CellValuesSingle(row: map<string, string>, field: string)
    requires field in row && row[field] != "" && !Includes(row[field], MultiValueSeparator)
    ensures CellValues(row, field) == [row[field]]
  {
  }

  /**
   * A cell with `:::` contributes at least two whitespace-free values that,
   * joined again with `:::`, give the cell with its whitespace removed.
   */
  lemma CellValuesMulti(row: map<string, string>, field: string)
    requires field in row && Includes(row[field], MultiValueSeparator)
    ensures |CellValues(row, field)| >= 2
    ensures forall i, j :: 0 <= i < |CellValues(row, field)| && 0 <= j < |CellValues(row, field)[i]| ==>
              !IsJsWhitespace(CellValues(row, field)[i][j])
    ensures Join(CellValues(row, field), MultiValueSeparator) == StripWhitespace(row[field])
    ensures |CellValues(row, field)| == |Split(row[field], MultiValueSeparator)|
    ensures forall i :: 0 <= i < |CellValues(row, field)| ==>
              CellValues(row, field)[i] == StripWhitespace(Split(row[field], MultiValueSeparator)[i])
  {
    var cell := row[field];
    var pieces := Split(cell, MultiValueSeparator);
    SplitSeveralIff(cell, MultiValueSeparator);
    JoinSplit(cell, MultiValueSeparator);
    RemoveWhereJoin(pieces, MultiValueSeparator, IsJsWhitespace);
    assert CellValues(row, field) == RemoveEach(pieces, IsJsWhitespace);
  }

  /**
   * What the collection loop gathers from `row` for the columns `fields`:
   * the contributions of the columns, in column order.
   */
  function Extract(row: map<string, string>, fields: seq<string>): (vals: seq<string>)
    ensures |fields| == 1 ==> vals == CellValues(row, fields[0])
  {
    assert |fields| == 1 ==>
             && fields[..|fields| - 1] == []
             && FlatMap(fields, CellValuesOf(row)) == CellValuesOf(row)(fields[0]);
    FlatMap(fields, CellValuesOf(row))
  }

  /** `CellValues` of a fixed row, as a function of the column. */
  function CellValuesOf(row: map<string, string>): string -> seq<string>
  {
    field => CellValues(row, field)
  }

  /** Extraction follows column order: the columns of `a` contribute before those of `b`. */
  lemma {:induction false} ExtractConcat(row: map<string, string>, a: seq<string>, b: seq<string>)
    ensures Extract(row, a + b) == Extract(row, a) + Extract(row, b)
  {
    FlatMapConcat(a, b, CellValuesOf(row));
  }

  /** A row yields no value exactly when each of the columns is missing or empty in it. */
  lemma {:induction false} ExtractOfEmptyColumns(row: map<string, string>, fields: seq<string>)
    ensures Extract(row, fields) == [] <==>
            forall i :: 0 <= i < |fields| ==> fields[i] !in row || row[fields[i]] == ""
    decreases |fields|
  {
    if fields != [] {
      var init := fields[..|fields| - 1];
      ExtractOfEmptyColumns(row, init);
      assert Extract(row, fields) == Extract(row, init) + CellValues(row, fields[|fields| - 1]);
      assert forall i :: 0 <= i < |init| ==> init[i] == fields[i];
    }
  }

  /** Spaces around a whitespace-free word are all removed. */
  lemma StripSurroundingSpaces(word: string, before: string, after: string)
    requires forall i :: 0 <= i < |word| ==> !IsJsWhitespace(word[i])
    requires forall i :: 0 <= i < |before| ==> before[i] == ' '
    requires forall i :: 0 <= i < |after| ==> after[i] == ' '
    ensures StripWhitespace(before + word + after) == word
  {
    RemoveWhereConcat(before + word, after, IsJsWhitespace);
    RemoveWhereConcat(before, word, IsJsWhitespace);
    RemoveWhereNoop(word, IsJsWhitespace);
    StripAllSpaces(before);
    StripAllSpaces(after);
  }

  lemma {:induction false} StripAllSpaces(s: string)
    requires forall i :: 0 <= i < |s| ==> s[i] == ' '
    ensures StripWhitespace(s) == []
    decreases |s|
  {
    if s != [] {
      StripAllSpaces(s[..|s| - 1]);
    }
  }

  /** The values of a cell may hold neither whitespace nor `:`. */
  predicate PlainValue(v: string)
  {
    forall i :: 0 <= i < |v| ==> !IsJsWhitespace(v[i]) && v[i] != ':'
  }

  /**
   * A cell holding two values around ` ::: ` (as in `a@x.com ::: b@x.com`)
   * yields exactly those two values, when they hold no whitespace and no `:`.
   */
  lemma TwoValueCell(field: string, a: string, b: string)
    requires PlainValue(a) && PlainValue(b)
    ensures CellValues(map[field := a + " ::: " + b], field) == [a, b]
  {
    var cell := a + " ::: " + b;
    TwoValueSplit(a, b);
    SplitSeveralIff(cell, MultiValueSeparator);
    TwoValueStrip(a, b);
    assert CellValues(map[field := cell], field) == RemoveEach([a + " ", " " + b], IsJsWhitespace);
  }

  lemma TwoValueSplit(a: string, b: string)
    requires PlainValue(a) && PlainValue(b)
    ensures Split(a + " ::: " + b, MultiValueSeparator) == [a + " ", " " + b]
  {
    var pieces := [a + " ", " " + b];
    assert Join(pieces, MultiValueSeparator) == a + " ::: " + b by {
      assert pieces[1..] == [" " + b];
    }
    forall i, j | 0 <= i < |pieces| && 0 <= j < |pieces[i]|
      ensures pieces[i][j] != MultiValueSeparator[0]
    {
      if i == 0 && j < |a| {
        assert pieces[i][j] == a[j];
      } else if i == 1 && j > 0 {
        assert pieces[i][j] == b[j - 1];
      }
    }
    SplitJoin(pieces, MultiValueSeparator);
  }

  lemma TwoValueStrip(a: string, b: string)
    requires PlainValue(a) && PlainValue(b)
    ensures RemoveEach([a + " ", " " + b], IsJsWhitespace) == [a, b]
  {
    StripSurroundingSpaces(a, [], [' ']);
    assert [] + a + [' '] == a + " ";
    StripSurroundingSpaces(b, [' '], []);
    assert [' '] + b + [] == " " + b;
  }

  // ---------------------------------------------------------------------
  // E-mail and phone lists
  // ---------------------------------------------------------------------

  /**
   * The e-mail list of a row: the extracted values without repetitions, in
   * the order of their first occurrence.
   */
  function HandleEmail(row: map<string, string>, emailFields: seq<string>): (emails: seq<string>)
    ensures NoDup(emails)
    ensures forall e :: e in emails <==> e in Extract(row, emailFields)
    ensures IsSubsequence(emails, Extract(row, emailFields))
    ensures forall i, j :: 0 <= i < j < |emails| ==>
              FirstIndex(Extract(row, emailFields), emails[i]) < FirstIndex(Extract(row, emailFields), emails[j])
  {
    var raw := Extract(row, emailFields);
    UniqSubsequence(raw);
    UniqFirstOccurrenceOrder(raw);
    Uniq(raw)
  }

  /** Every extracted phone value, cleaned and put in international form. */
  function NormalizeEach(raw: seq<string>): seq<string>
  {
    seq(|raw|, i requires 0 <= i < |raw| => NormalizePhone(raw[i]))
  }

  /**
   * The phone list of a row: the normalised extracted values without
   * repetitions, in the order of their first occurrence. No number holds a
   * separator, and normalising the list again changes nothing.
   */
  function HandlePhone(row: map<string, string>, phoneFields: seq<string>): (phones: seq<string>)
    ensures NoDup(phones)
    ensures forall p :: p in phones <==> p in NormalizeEach(Extract(row, phoneFields))
    ensures IsSubsequence(phones, NormalizeEach(Extract(row, phoneFields)))
    ensures forall i, j :: 0 <= i < |phones| && 0 <= j < |phones[i]| ==> !IsPhoneSeparator(phones[i][j])
    ensures forall i :: 0 <= i < |phones| ==> NormalizePhone(phones[i]) == phones[i]
    ensures forall i, j :: 0 <= i < j < |phones| ==>
              FirstIndex(NormalizeEach(Extract(row, phoneFields)), phones[i])
              < FirstIndex(NormalizeEach(Extract(row, phoneFields)), phones[j])
  {
    var normalized := NormalizeEach(Extract(row, phoneFields));
    UniqSubsequence(normalized);
    UniqFirstOccurrenceOrder(normalized);
    NormalizedValuesAreFixed(Extract(row, phoneFields));
    Uniq(normalized)
  }

  /** Every value of a normalised list, and of its deduplication, is a fixed point of `NormalizePhone`. */
  lemma NormalizedValuesAreFixed(raw: seq<string>)
    ensures forall i :: 0 <= i < |Uniq(NormalizeEach(raw))| ==>
              NormalizePhone(Uniq(NormalizeEach(raw))[i]) == Uniq(NormalizeEach(raw))[i]
  {
    var normalized := NormalizeEach(raw);
    var phones := Uniq(normalized);
    forall i | 0 <= i < |phones|
      ensures NormalizePhone(phones[i]) == phones[i]
    {
      var k :| 0 <= k < |normalized| && normalized[k] == phones[i];
      NormalizePhoneIdempotent(raw[k]);
    }
  }

  /** One row as a contact: its `Name` cell verbatim, its e-mail list and its phone list. */
  function ToContact(row: map<string, string>, emailFields: seq<string>, phoneFields: seq<string>): (c: Contact)
    requires "Name" in row
    ensures NoDup(c.emails) && NoDup(c.phones)
    ensures forall e :: e in c.emails <==> e in Extract(row, emailFields)
    ensures forall p :: p in c.phones <==> p in NormalizeEach(Extract(row, phoneFields))
  {
    Contact(row["Name"], HandleEmail(row, emailFields), HandlePhone(row, phoneFields))
  }

  /**
   * `mapData`: one contact per row, in row order, each built from its own
   * row only; rows with equal names stay separate contacts.
   */
  function MapData(rows: seq<Record>, emailFields: seq<string>, phoneFields: seq<string>): (contacts: seq<Contact>)
    requires NamesPresent(rows)
    ensures |contacts| == |rows|
    ensures forall i :: 0 <= i < |rows| ==>
              && contacts[i].name == rows[i].cells["Name"]
              && contacts[i] == ToContact(rows[i].cells, emailFields, phoneFields)
  {
    seq(|rows|, i requires 0 <= i < |rows| => ToContact(rows[i].cells, emailFields, phoneFields))
  }

  /** No merging across rows: mapping a concatenation is concatenating the mappings. */
  lemma MapDataConcat(a: seq<Record>, b: seq<Record>, emailFields: seq<string>, phoneFields: seq<string>)
    requires NamesPresent(a) && NamesPresent(b)
    ensures NamesPresent(a + b)
    ensures MapData(a + b, emailFields, phoneFields)
            == MapData(a, emailFields, phoneFields) + MapData(b, emailFields, phoneFields)
  {
    assert forall i :: 0 <= i < |a + b| ==> (a + b)[i] == if i < |a| then a[i] else b[i - |a|];
  }

  // ---------------------------------------------------------------------
  // Export
  // ---------------------------------------------------------------------

  /**
   * One contact with both lists joined by ` , `: an empty list becomes "",
   * a single value stays itself, and each further value adds one separator.
   */
  function Flatten(c: Contact): (r: FlatContact)
    ensures r.name == c.name
    ensures r.emails == Join(c.emails, ExportSeparator) && r.phones == Join(c.phones, ExportSeparator)
    ensures c.emails == [] ==> r.emails == ""
    ensures c.phones == [] ==> r.phones == ""
    ensures |c.phones| == 1 ==> r.phones == c.phones[0]
    ensures c.phones != [] ==>
              |r.phones| == TotalLength(c.phones) + (|c.phones| - 1) * |ExportSeparator|
  {
    FlatContact(c.name, Join(c.emails, ExportSeparator), Join(c.phones, ExportSeparator))
  }

  /** The records `export` hands to the CSV writer: one per contact, in order, names unchanged. */
  function FlattenAll(contacts: seq<Contact>): (records: seq<FlatContact>)
    ensures |records| == |contacts|
    ensures forall i :: 0 <= i < |contacts| ==>
              && records[i].name == contacts[i].name
              && records[i].emails == Join(contacts[i].emails, ExportSeparator)
              && records[i].phones == Join(contacts[i].phones, ExportSeparator)
  {
    seq(|contacts|, i requires 0 <= i < |contacts| => Flatten(contacts[i]))
  }

  /**
   * A non-empty list whose values contain no space can be read back from
   * its exported string by splitting on ` , `.
   */
  lemma ExportedListRoundTrip(values: seq<string>)
    requires |values| > 0
    requires forall i, j :: 0 <= i < |values| && 0 <= j < |values[i]| ==> values[i][j] != ' '
    ensures Split(Join(values, ExportSeparator), ExportSeparator) == values
  {
    SplitJoin(values, ExportSeparator);
  }

  /**
   * The exported phone string of every mapped contact gives back its phone
   * list when split on ` , `; an empty list is exported as the empty string.
   */
  lemma ExportedPhonesRoundTrip(rows: seq<Record>, emailFields: seq<string>, phoneFields: seq<string>, k: nat)
    requires NamesPresent(rows) && k < |rows|
    ensures var c := MapData(rows, emailFields, phoneFields)[k];
            var record := FlattenAll(MapData(rows, emailFields, phoneFields))[k];
            && (c.phones == [] ==> record.phones == "")
            && (c.phones != [] ==> Split(record.phones, ExportSeparator) == c.phones)
  {
    var c := MapData(rows, emailFields, phoneFields)[k];
    if c.phones != [] {
      assert IsJsWhitespace(' ');
      ExportedListRoundTrip(c.phones);
    }
  }

  // ---------------------------------------------------------------------
  // The normaliser object
  // ---------------------------------------------------------------------

  /**
   * The normaliser: the parsed rows, the detected columns and the contacts
   * of the last successful read.
   */
  class Csv {
    var csvDatas: seq<Record>
    var contacts: Option<seq<Contact>>
    var phoneFields: seq<string>
    var emailFields: seq<string>

    /** A fresh normaliser holds no rows and no contacts. */
    constructor ()
      ensures csvDatas == [] && contacts == None
      ensures phoneFields == [] && emailFields == []
    {
      csvDatas := [];
      contacts := None;
      phoneFields := [];
      emailFields := [];
    }

    /**
     * Takes the parsed rows, finds the columns and maps the rows to
     * contacts. With no row the column search throws: the rows are kept but
     * columns and contacts are left as they were.
     */
    method Read(rows: seq<Record>) returns (result: Result<seq<Contact>, ReadError>)
      requires NamesPresent(rows)
      modifies this
      ensures csvDatas == rows
      ensures rows == [] ==>
                && result == Failure(NoFirstRow)
                && contacts == old(contacts)
                && emailFields == old(emailFields) && phoneFields == old(phoneFields)
      ensures rows != [] ==>
                && emailFields == FieldsMatching(rows[0].keys, EmailLabel)
                && phoneFields == FieldsMatching(rows[0].keys, PhoneLabel)
                && contacts == Some(MapData(rows, emailFields, phoneFields))
                && result == Success(contacts.value)
    {
      csvDatas := rows;
      var thrown := FindFields();
      if thrown {
        return Failure(NoFirstRow);
      }
      var mapped := MapData(csvDatas, emailFields, phoneFields);
      contacts := Some(mapped);
      return Success(mapped);
    }

    /** Finds the e-mail columns, then the phone columns; throws when there is no first row. */
    method FindFields() returns (thrown: bool)
      modifies this`emailFields, this`phoneFields
      ensures thrown <==> csvDatas == []
      ensures thrown ==> emailFields == old(emailFields) && phoneFields == old(phoneFields)
      ensures !thrown ==>
                && emailFields == FieldsMatching(csvDatas[0].keys, EmailLabel)
                && phoneFields == FieldsMatching(csvDatas[0].keys, PhoneLabel)
    {
      thrown := FindEmailField();
      if thrown {
        return;
      }
      thrown := FindPhoneField();
    }

    /**
     * The e-mail columns: the keys of the first row matching
     * `E-mail\s\d - Value`, in key order. The source's guard for an empty
     * row list compares the length with `< 0` and so never fires; without a
     * first row the key lookup throws.
     */
    method FindEmailField() returns (thrown: bool)
      modifies this`emailFields
      ensures thrown <==> csvDatas == []
      ensures thrown ==> emailFields == old(emailFields)
      ensures !thrown ==> emailFields == FieldsMatching(csvDatas[0].keys, EmailLabel)
    {
      if csvDatas == [] {
        return true;
      }
      emailFields := FieldsMatching(csvDatas[0].keys, EmailLabel);
      return false;
    }

    /** The phone columns: the keys of the first row matching `Phone\s\d - Value`, in key order. */
    method FindPhoneField() returns (thrown: bool)
      modifies this`phoneFields
      ensures thrown <==> csvDatas == []
      ensures thrown ==> phoneFields == old(phoneFields)
      ensures !thrown ==> phoneFields == FieldsMatching(csvDatas[0].keys, PhoneLabel)
    {
      if csvDatas == [] {
        return true;
      }
      phoneFields := FieldsMatching(csvDatas[0].keys, PhoneLabel);
      return false;
    }

    /**
     * The collection loop: for each column in turn, a present non-empty
     * cell contributes its whitespace-stripped `:::` pieces, or itself when
     * it has no separator.
     */
    method Handle(csvData: map<string, string>, fieldsName: seq<string>) returns (arrTmp: seq<string>)
      ensures arrTmp == Extract(csvData, fieldsName)
    {
      arrTmp := [];
      var i := 0;
      while i < |fieldsName|
        invariant 0 <= i <= |fieldsName|
        invariant arrTmp == Extract(csvData, fieldsName[..i])
      {
        var fieldName := fieldsName[i];
        assert fieldsName[..i + 1][..i] == fieldsName[..i];
        if fieldName in csvData && csvData[fieldName] != "" {
          var cell := csvData[fieldName];
          if Includes(cell, MultiValueSeparator) {
            var tmp := Split(cell, MultiValueSeparator);
            var j := 0;
            while j < |tmp|
              invariant 0 <= j <= |tmp|
              invariant arrTmp == Extract(csvData, fieldsName[..i]) + RemoveEach(tmp[..j], IsJsWhitespace)
            {
              assert RemoveEach(tmp[..j + 1], IsJsWhitespace)
                     == RemoveEach(tmp[..j], IsJsWhitespace) + [StripWhitespace(tmp[j])];
              arrTmp := arrTmp + [StripWhitespace(tmp[j])];
              j := j + 1;
            }
            assert tmp[..j] == tmp;
          } else {
            arrTmp := arrTmp + [cell];
          }
        }
        i := i + 1;
      }
      assert fieldsName[..i] == fieldsName;
    }

    /** The flat records of the contacts of the last read, ready for the CSV writer. */
    method Export() returns (records: seq<FlatContact>)
      requires contacts.Some?
      ensures |records| == |contacts.value|
      ensures records == FlattenAll(contacts.value)
    {
      records := FlattenAll(contacts.value);
    }
  }
}
