/**
 * The employee payload on both sides of the wire. On the client, a payload
 * becomes a multipart form (optional fields appended only when they carry a
 * value) or a JSON body (every key present, null for absent fields). On the
 * server, the store request first turns blank optional fields into null and
 * then checks the enum, numeric and minimum rules.
 */
module EmployeePayload {
  import opened Common

  // -----------------------------------------------------------------------
  // Server side: prepareForValidation

  /** The optional keys, in the order the server lists them (the client appends them in the same order). */
  const OptionalKeys: seq<string> := [
    "middle_name", "email", "phone", "date_of_birth", "gender", "civil_status",
    "address", "position_id", "branch_id", "date_hired", "basic_salary", "rfid",
    "sss", "philhealth", "pagibig", "tin", "bank_name", "bank_account",
    "emergency_contact_name", "emergency_contact_phone"]

  const RequiredKeys: seq<string> := ["employee_id", "first_name", "last_name"]

  /** A key the normaliser rewrites: optional, present, and exactly the empty string. */
  predicate IsBlankOptional(input: map<string, Value>, key: string) {
    key in OptionalKeys && key in input && input[key] == VStr("")
  }

  /** The request input after blank optional fields have been set to null. */
  function Normalized(input: map<string, Value>): map<string, Value> {
    map k | k in input :: if IsBlankOptional(input, k) then VNull else input[k]
  }

  /** The loop of prepareForValidation: the merge map of keys to set to null. */
  method CollectBlankOptional(input: map<string, Value>) returns (merge: map<string, Value>)
    ensures forall k :: k in merge <==> IsBlankOptional(input, k)
    ensures forall k :: k in merge ==> merge[k] == VNull
  {
    merge := map[];
    var i := 0;
    while i < |OptionalKeys|
      invariant 0 <= i <= |OptionalKeys|
      invariant forall k :: k in merge <==> k in OptionalKeys[..i] && k in input && input[k] == VStr("")
      invariant forall k :: k in merge ==> merge[k] == VNull
    {
      var key := OptionalKeys[i];
      assert OptionalKeys[..i + 1] == OptionalKeys[..i] + [key];
      if key in input && input[key] == VStr("") {
        merge := merge[key := VNull];
      }
      i := i + 1;
    }
    assert OptionalKeys[..i] == OptionalKeys;
  }

  /** The store request, whose input prepareForValidation rewrites in place. */
  class EmployeeFormRequest {
    var input: map<string, Value>

    constructor (input: map<string, Value>)
      ensures this.input == input
    {
      this.input := input;
    }

    method PrepareForValidation()
      modifies this
      ensures input == Normalized(old(input))
    {
      var merge := CollectBlankOptional(input);
      if merge != map[] {
        input := input + merge;
      }
      assert forall k :: k in input <==> k in Normalized(old(input));
    }
  }

  /**
   * Normalising adds no key and removes none, sets every blank optional field
   * to null, and leaves every other field, including the required keys and
   * status, as it was.
   */
  lemma NormalizedEffect(input: map<string, Value>)
    ensures Normalized(input).Keys == input.Keys
    ensures forall k :: k in input && IsBlankOptional(input, k) ==> Normalized(input)[k] == VNull
    ensures forall k :: k in input && !IsBlankOptional(input, k) ==> Normalized(input)[k] == input[k]
    ensures forall k :: k in input && (k in RequiredKeys || k == "status") ==> Normalized(input)[k] == input[k]
  {
    assert forall k :: k in RequiredKeys || k == "status" ==> k !in OptionalKeys;
  }

  /** Normalising twice gives the same input as normalising once. */
  lemma NormalizedIdempotent(input: map<string, Value>)
    ensures Normalized(Normalized(input)) == Normalized(input)
  {
    var n := Normalized(input);
    assert forall k :: k in n ==> !IsBlankOptional(n, k);
  }

  // -----------------------------------------------------------------------
  // Server side: the enum, numeric and minimum rules

  /** A blank string, which Laravel's non-implicit rules do not check. */
  predicate IsBlankString(v: Value) {
    v.VStr? && PhpTrim(v.s) == []
  }

  predicate AllDigits(s: string) {
    forall i :: 0 <= i < |s| ==> IsAsciiDigit(s[i])
  }

  /** Digits with at most one decimal point, and at least one digit. */
  predicate IsUnsignedDecimal(s: string) {
    var parts := Split(s, '.');
    && |parts| <= 2
    && (forall j :: 0 <= j < |parts| ==> AllDigits(parts[j]))
    && (if |parts| == 1 then s != [] else |parts[0]| + |parts[1]| >= 1)
  }

  /** PHP's is_numeric for plain decimal strings: an optional sign, then an unsigned decimal. */
  predicate IsNumericString(s: string) {
    if s != [] && (s[0] == '-' || s[0] == '+') then IsUnsignedDecimal(s[1..]) else IsUnsignedDecimal(s)
  }

  function Pow10(n: nat): (r: nat)
    ensures r >= 1
  {
    if n == 0 then 1 else 10 * Pow10(n - 1)
  }

  function UnsignedValue(s: string): (r: real)
    requires IsUnsignedDecimal(s)
    ensures r >= 0.0
  {
    var parts := Split(s, '.');
    if |parts| == 1 then DigitsValue(s) as real
    else DigitsValue(parts[0]) as real + DigitsValue(parts[1]) as real / Pow10(|parts[1]|) as real
  }

  /** The number a numeric string denotes. */
  function NumericValue(s: string): real
    requires IsNumericString(s)
  {
    if s != [] && s[0] == '-' then -UnsignedValue(s[1..])
    else if s != [] && s[0] == '+' then UnsignedValue(s[1..])
    else UnsignedValue(s)
  }

  /** `nullable|string|in:...`: absent, null or blank, or one of the allowed strings. */
  predicate PassesEnumRule(input: map<string, Value>, key: string, allowed: seq<string>) {
    key !in input || input[key] == VNull || IsBlankString(input[key])
    || (input[key].VStr? && input[key].s in allowed)
  }

  /** `nullable|numeric|min:0` on basic_salary. */
  predicate PassesSalaryRule(input: map<string, Value>) {
    var key := "basic_salary";
    key !in input || input[key] == VNull || IsBlankString(input[key])
    || (input[key].VNum? && input[key].n >= 0.0)
    || (input[key].VStr? && IsNumericString(input[key].s) && NumericValue(input[key].s) >= 0.0)
  }

  const Genders: seq<string> := ["male", "female", "other"]
  const CivilStatuses: seq<string> := ["single", "married", "widowed", "separated"]
  const Statuses: seq<string> := ["active", "inactive", "deleted"]

  predicate PassesEnumAndMinRules(input: map<string, Value>) {
    && PassesEnumRule(input, "gender", Genders)
    && PassesEnumRule(input, "civil_status", CivilStatuses)
    && PassesEnumRule(input, "status", Statuses)
    && PassesSalaryRule(input)
  }

  /** A natural number written in decimal is a numeric string with that value. */
  lemma DecimalSalaryAccepted(n: nat)
    ensures IsNumericString(NatToDecimal(n))
    ensures NumericValue(NatToDecimal(n)) == n as real
  {
    var s := NatToDecimal(n);
    assert '.' !in s by {
      assert forall i :: 0 <= i < |s| ==> IsAsciiDigit(s[i]);
    }
    assert !(s[0] == '-' || s[0] == '+');
    NatToDecimalRoundTrip(n);
  }

  /** A salary written with a minus sign before a positive number is refused. */
  lemma NegativeSalaryRefused(n: nat)
    requires n > 0
    ensures IsNumericString("-" + NatToDecimal(n))
    ensures NumericValue("-" + NatToDecimal(n)) == -(n as real)
    ensures !PassesSalaryRule(map["basic_salary" := VStr("-" + NatToDecimal(n))])
  {
    var d := NatToDecimal(n);
    var s := "-" + d;
    assert s[1..] == d;
    DecimalSalaryAccepted(n);
    assert !IsBlankString(VStr(s)) by {
      assert s[|s| - 1] == d[|d| - 1];
      assert IsAsciiDigit(s[|s| - 1]);
      TrimOfTrimmed(s, IsPhpSpace);
    }
    var input := map["basic_salary" := VStr(s)];
    assert input["basic_salary"] == VStr(s);
  }

  /** A whole part and a fractional part around one point are the two pieces of the split. */
  lemma SplitAtPoint(whole: nat, fraction: nat)
    ensures Split(NatToDecimal(whole) + "." + NatToDecimal(fraction), '.') == [NatToDecimal(whole), NatToDecimal(fraction)]
  {
    var w := NatToDecimal(whole);
    var f := NatToDecimal(fraction);
    assert '.' !in w by { assert forall i :: 0 <= i < |w| ==> IsAsciiDigit(w[i]); }
    assert '.' !in f by { assert forall i :: 0 <= i < |f| ==> IsAsciiDigit(f[i]); }
    assert w + "." + f == w + ['.'] + f;
    SplitTwo(w, f, '.');
  }

  /** A whole part, a point and a fractional part make an unsigned decimal worth at least the whole part. */
  lemma PointDecimalValue(whole: nat, fraction: nat)
    ensures IsUnsignedDecimal(NatToDecimal(whole) + "." + NatToDecimal(fraction))
    ensures UnsignedValue(NatToDecimal(whole) + "." + NatToDecimal(fraction)) >= whole as real
  {
    var w := NatToDecimal(whole);
    var f := NatToDecimal(fraction);
    var s := w + "." + f;
    SplitAtPoint(whole, fraction);
    var parts := Split(s, '.');
    assert parts == [w, f];
    assert IsUnsignedDecimal(s) by {
      assert AllDigits(parts[0]) && AllDigits(parts[1]);
      assert |w| >= 1;
    }
    NatToDecimalRoundTrip(whole);
    var fracPart := DigitsValue(f) as real / Pow10(|f|) as real;
    assert fracPart >= 0.0;
    assert UnsignedValue(s) == whole as real + fracPart;
  }

  /** A salary with a whole part and a fractional part is a numeric string, and never negative. */
  lemma FractionalSalaryAccepted(whole: nat, fraction: nat)
    ensures IsNumericString(NatToDecimal(whole) + "." + NatToDecimal(fraction))
    ensures NumericValue(NatToDecimal(whole) + "." + NatToDecimal(fraction)) >= whole as real
  {
    var w := NatToDecimal(whole);
    var s := w + "." + NatToDecimal(fraction);
    PointDecimalValue(whole, fraction);
    assert s[0] == w[0];
    assert IsAsciiDigit(w[0]);
  }

  // -----------------------------------------------------------------------
  // Client side: the payload

  /** basic_salary is a string or a number on the client. */
  datatype Salary = SalaryText(text: string) | SalaryNumber(amount: int)

  /** The photo field: a File chosen in the form, or some other value. */
  datatype PhotoValue = PhotoFile(fileName: string) | NotAFile

  datatype Payload = Payload(
    employeeId: string,
    firstName: string,
    lastName: string,
    middleName: Option<string>,
    email: Option<string>,
    phone: Option<string>,
    dateOfBirth: Option<string>,
    gender: Option<string>,
    civilStatus: Option<string>,
    address: Option<string>,
    positionId: Option<int>,
    branchId: Option<int>,
    dateHired: Option<string>,
    basicSalary: Option<Salary>,
    rfid: Option<string>,
    status: Option<string>,
    photo: Option<PhotoValue>,
    sss: Option<string>,
    philhealth: Option<string>,
    pagibig: Option<string>,
    tin: Option<string>,
    bankName: Option<string>,
    bankAccount: Option<string>,
    emergencyContactName: Option<string>,
    emergencyContactPhone: Option<string>)

  /** `payload.status ?? 'active'`. */
  function StatusOrDefault(p: Payload): string {
    p.status.GetOr("active")
  }

  // -----------------------------------------------------------------------
  // Client side: appendPayloadToFormData

  datatype FormValue = Text(text: string) | File(fileName: string)

  /** A browser FormData object: the appended entries, in order. */
  class FormData {
    var entries: seq<(string, FormValue)>

    constructor ()
      ensures entries == []
    {
      entries := [];
    }

    method Append(name: string, value: FormValue)
      modifies this
      ensures entries == old(entries) + [(name, value)]
    {
      entries := entries + [(name, value)];
    }
  }

  /**
   * A string field's value when it is to be appended. `v != null && v !== ''`
   * and the truthiness test `if (v)` agree on strings: both hold exactly for
   * a non-empty string.
   */
  function TextIfNonEmpty(v: Option<string>): (r: Option<string>)
    ensures r.Some? <==> v.Some? && v.value != ""
    ensures r.Some? ==> r.value == v.value
  {
    if v.Some? && v.value != "" then v else None
  }

  /** `String(id)` whenever the id is not null, 0 included. */
  function IdText(v: Option<int>): (r: Option<string>)
    ensures r.Some? <==> v.Some?
    ensures r.Some? ==> r.value == IntToDecimal(v.value) && r.value != ""
  {
    if v.Some? then Some(IntToDecimal(v.value)) else None
  }

  /** `String(salary)` unless the salary is null or the empty string. */
  function SalaryFormText(v: Option<Salary>): (r: Option<string>)
    ensures r.Some? <==> v.Some? && v.value != SalaryText("")
    ensures r.Some? ==> r.value != ""
    ensures v.Some? && v.value.SalaryText? && v.value.text != "" ==> r == Some(v.value.text)
    ensures v.Some? && v.value.SalaryNumber? ==> r == Some(IntToDecimal(v.value.amount))
  {
    match v
    case None => None
    case Some(SalaryText(t)) => if t != "" then Some(t) else None
    case Some(SalaryNumber(n)) => Some(IntToDecimal(n))
  }

  /** The value the form sends for the optional key at position `i` of OptionalKeys, if any. */
  function FormText(p: Payload, i: nat): (r: Option<string>)
    requires i < |OptionalKeys|
    ensures r.Some? ==> r.value != ""
  {
    if i == 0 then TextIfNonEmpty(p.middleName)
    else if i == 1 then TextIfNonEmpty(p.email)
    else if i == 2 then TextIfNonEmpty(p.phone)
    else if i == 3 then TextIfNonEmpty(p.dateOfBirth)
    else if i == 4 then TextIfNonEmpty(p.gender)
    else if i == 5 then TextIfNonEmpty(p.civilStatus)
    else if i == 6 then TextIfNonEmpty(p.address)
    else if i == 7 then IdText(p.positionId)
    else if i == 8 then IdText(p.branchId)
    else if i == 9 then TextIfNonEmpty(p.dateHired)
    else if i == 10 then SalaryFormText(p.basicSalary)
    else if i == 11 then TextIfNonEmpty(p.rfid)
    else if i == 12 then TextIfNonEmpty(p.sss)
    else if i == 13 then TextIfNonEmpty(p.philhealth)
    else if i == 14 then TextIfNonEmpty(p.pagibig)
    else if i == 15 then TextIfNonEmpty(p.tin)
    else if i == 16 then TextIfNonEmpty(p.bankName)
    else if i == 17 then TextIfNonEmpty(p.bankAccount)
    else if i == 18 then TextIfNonEmpty(p.emergencyContactName)
    else TextIfNonEmpty(p.emergencyContactPhone)
  }

  /** The optional fields in the order the form appends them, which is the order of OptionalKeys. */
  function OptionalFormFields(p: Payload): (r: seq<(string, Option<string>)>)
    ensures |r| == |OptionalKeys|
  {
    seq(|OptionalKeys|, i requires 0 <= i < |OptionalKeys| => (OptionalKeys[i], FormText(p, i)))
  }

  /** The entries for the fields that carry a value, in order. */
  function PresentEntries(fields: seq<(string, Option<string>)>): (r: seq<(string, FormValue)>)
    ensures |r| <= |fields|
    decreases |fields|
  {
    if fields == [] then []
    else
      (if fields[0].1.Some? then [(fields[0].0, Text(fields[0].1.value))] else [])
      + PresentEntries(fields[1..])
  }

  /** Every present entry comes from a field that carries a value. */
  lemma {:induction false} PresentEntriesSound(fields: seq<(string, Option<string>)>, e: (string, FormValue))
    requires e in PresentEntries(fields)
    ensures exists j :: 0 <= j < |fields| && fields[j].1.Some? && e == (fields[j].0, Text(fields[j].1.value))
    decreases |fields|
  {
    var head := if fields[0].1.Some? then [(fields[0].0, Text(fields[0].1.value))] else [];
    assert PresentEntries(fields) == head + PresentEntries(fields[1..]);
    if e !in head {
      PresentEntriesSound(fields[1..], e);
      var j :| 0 <= j < |fields[1..]| && fields[1..][j].1.Some? && e == (fields[1..][j].0, Text(fields[1..][j].1.value));
      assert fields[j + 1] == fields[1..][j];
    }
  }

  /** Every field that carries a value has its entry. */
  lemma {:induction false} PresentEntriesComplete(fields: seq<(string, Option<string>)>, j: nat)
    requires j < |fields| && fields[j].1.Some?
    ensures (fields[j].0, Text(fields[j].1.value)) in PresentEntries(fields)
    decreases j
  {
    var head := if fields[0].1.Some? then [(fields[0].0, Text(fields[0].1.value))] else [];
    assert PresentEntries(fields) == head + PresentEntries(fields[1..]);
    if j > 0 {
      assert fields[1..][j - 1] == fields[j];
      PresentEntriesComplete(fields[1..], j - 1);
    }
  }

  lemma {:induction false} PresentEntriesSnoc(fields: seq<(string, Option<string>)>, f: (string, Option<string>))
    ensures PresentEntries(fields + [f]) ==
      PresentEntries(fields) + (if f.1.Some? then [(f.0, Text(f.1.value))] else [])
    decreases |fields|
  {
    if fields == [] {
      assert [] + [f] == [f];
      assert [f][1..] == [];
    } else {
      assert (fields + [f])[1..] == fields[1..] + [f];
      assert (fields + [f])[0] == fields[0];
      PresentEntriesSnoc(fields[1..], f);
    }
  }

  function RequiredEntries(p: Payload): seq<(string, FormValue)> {
    [("employee_id", Text(p.employeeId)), ("first_name", Text(p.firstName)),
     ("last_name", Text(p.lastName)), ("status", Text(StatusOrDefault(p)))]
  }

  function PhotoEntries(p: Payload, includePhoto: bool): seq<(string, FormValue)> {
    if includePhoto && p.photo.Some? && p.photo.value.PhotoFile? then [("photo", File(p.photo.value.fileName))] else []
  }

  /** Everything appendPayloadToFormData appends, in order. */
  function PayloadEntries(p: Payload, includePhoto: bool): seq<(string, FormValue)> {
    RequiredEntries(p) + PresentEntries(OptionalFormFields(p)) + PhotoEntries(p, includePhoto)
  }

  method AppendIfPresent(fd: FormData, field: (string, Option<string>))
    modifies fd
    ensures fd.entries == old(fd.entries) + (if field.1.Some? then [(field.0, Text(field.1.value))] else [])
  {
    if field.1.Some? {
      fd.Append(field.0, Text(field.1.value));
    }
  }

  method AppendRequired(fd: FormData, p: Payload)
    modifies fd
    ensures fd.entries == old(fd.entries) + RequiredEntries(p)
  {
    fd.Append("employee_id", Text(p.employeeId));
    fd.Append("first_name", Text(p.firstName));
    fd.Append("last_name", Text(p.lastName));
    fd.Append("status", Text(StatusOrDefault(p)));
  }

  /** Appends, in order, the fields that carry a value. */
  method AppendPresent(fd: FormData, fields: seq<(string, Option<string>)>)
    modifies fd
    ensures fd.entries == old(fd.entries) + PresentEntries(fields)
  {
    var i := 0;
    while i < |fields|
      invariant 0 <= i <= |fields|
      invariant fd.entries == old(fd.entries) + PresentEntries(fields[..i])
    {
      PresentEntriesSnoc(fields[..i], fields[i]);
      assert fields[..i + 1] == fields[..i] + [fields[i]];
      AppendIfPresent(fd, fields[i]);
      i := i + 1;
    }
    assert fields[..i] == fields;
  }

  method AppendPayloadToFormData(fd: FormData, p: Payload, includePhoto: bool)
    modifies fd
    ensures fd.entries == old(fd.entries) + PayloadEntries(p, includePhoto)
  {
    AppendRequired(fd, p);
    AppendPresent(fd, OptionalFormFields(p));
    if includePhoto && p.photo.Some? && p.photo.value.PhotoFile? {
      fd.Append("photo", File(p.photo.value.fileName));
    }
  }

  /** The first four entries are always employee_id, first_name, last_name and status, the last defaulting to "active". */
  lemma RequiredEntriesFirst(p: Payload, includePhoto: bool)
    ensures |PayloadEntries(p, includePhoto)| >= 4
    ensures PayloadEntries(p, includePhoto)[..4] ==
      [("employee_id", Text(p.employeeId)), ("first_name", Text(p.firstName)),
       ("last_name", Text(p.lastName)), ("status", Text(if p.status.Some? then p.status.value else "active"))]
  {
    var entries := PayloadEntries(p, includePhoto);
    assert entries[..4] == RequiredEntries(p);
  }

  /** Every optional entry the form sends carries a non-empty text value. */
  lemma OptionalEntriesAreNonEmpty(p: Payload, e: (string, FormValue))
    requires e in PresentEntries(OptionalFormFields(p))
    ensures e.1.Text? && e.1.text != ""
  {
    var fields := OptionalFormFields(p);
    PresentEntriesSound(fields, e);
    var j :| 0 <= j < |fields| && fields[j].1.Some? && e == (fields[j].0, Text(fields[j].1.value));
    assert fields[j].1 == FormText(p, j);
  }

  lemma OptionalKeysDistinct()
    ensures forall i, j :: 0 <= i < j < |OptionalKeys| ==> OptionalKeys[i] != OptionalKeys[j]
  {
  }

  /** An optional key is sent exactly when its field carries a value, and then with that value. */
  lemma OptionalEntryPresence(p: Payload, i: nat)
    requires i < |OptionalKeys|
    ensures (exists e :: e in PresentEntries(OptionalFormFields(p)) && e.0 == OptionalKeys[i]) <==> FormText(p, i).Some?
    ensures forall e :: e in PresentEntries(OptionalFormFields(p)) && e.0 == OptionalKeys[i] ==> e.1 == Text(FormText(p, i).value)
  {
    var fields := OptionalFormFields(p);
    OptionalKeysDistinct();
    forall e | e in PresentEntries(fields) && e.0 == OptionalKeys[i]
      ensures FormText(p, i).Some? && e.1 == Text(FormText(p, i).value)
    {
      PresentEntriesSound(fields, e);
      var j :| 0 <= j < |fields| && fields[j].1.Some? && e == (fields[j].0, Text(fields[j].1.value));
      assert OptionalKeys[j] == OptionalKeys[i];
      assert j == i;
    }
    if FormText(p, i).Some? {
      PresentEntriesComplete(fields, i);
    }
  }

  /** A text field is sent only when non-empty, an id even when it is 0, a salary of 0 as "0". */
  lemma OptionalFieldExamples(p: Payload)
    ensures FormText(p, 1).Some? <==> p.email.Some? && p.email.value != ""
    ensures p.positionId == Some(0) ==> FormText(p, 7) == Some("0")
    ensures p.basicSalary == Some(SalaryNumber(0)) ==> FormText(p, 10) == Some("0")
    ensures p.basicSalary == Some(SalaryText("")) ==> FormText(p, 10).None?
  {
  }

  /** The photo is sent only when asked for and the value is a File. */
  lemma PhotoOnlyWhenAFile(p: Payload, includePhoto: bool)
    ensures (exists i :: 0 <= i < |PayloadEntries(p, includePhoto)| && PayloadEntries(p, includePhoto)[i].1.File?) <==>
      includePhoto && p.photo.Some? && p.photo.value.PhotoFile?
  {
    var req := RequiredEntries(p);
    var opt := PresentEntries(OptionalFormFields(p));
    var ph := PhotoEntries(p, includePhoto);
    var all := PayloadEntries(p, includePhoto);
    forall i | 0 <= i < |req| + |opt|
      ensures all[i].1.Text?
    {
      if i < |req| {
        assert all[i] == req[i];
      } else {
        assert all[i] == opt[i - |req|];
        OptionalEntriesAreNonEmpty(p, all[i]);
      }
    }
    if exists i :: 0 <= i < |all| && all[i].1.File? {
      var i :| 0 <= i < |all| && all[i].1.File?;
      assert i >= |req| + |opt|;
    }
    if ph != [] {
      assert all[|req| + |opt|] == ph[0];
    }
  }

  // -----------------------------------------------------------------------
  // Client side: the JSON bodies and the requests

  function TextOrNull(v: Option<string>): (r: Value)
    ensures v.None? <==> r == VNull
    ensures v.Some? ==> r == VStr(v.value)
  {
    if v.Some? then VStr(v.value) else VNull
  }

  function IdOrNull(v: Option<int>): (r: Value)
    ensures v.None? <==> r == VNull
    ensures v.Some? ==> r == VNum(v.value as real)
  {
    if v.Some? then VNum(v.value as real) else VNull
  }

  function SalaryOrNull(v: Option<Salary>): (r: Value)
    ensures v.None? <==> r == VNull
    ensures v.Some? && v.value.SalaryText? ==> r == VStr(v.value.text)
    ensures v.Some? && v.value.SalaryNumber? ==> r == VNum(v.value.amount as real)
  {
    match v
    case None => VNull
    case Some(SalaryText(t)) => VStr(t)
    case Some(SalaryNumber(n)) => VNum(n as real)
  }

  /** The keys of the JSON body, in the order the object literal lists them. */
  const BodyKeys: seq<string> := RequiredKeys + ["status"] + OptionalKeys

  lemma BodyKeysDistinct()
    ensures forall i, j :: 0 <= i < j < |BodyKeys| ==> BodyKeys[i] != BodyKeys[j]
  {
  }

  /** The JSON value sent for an optional key: the field as it is, or null (`?? null`). */
  function OptionalJson(p: Payload, i: nat): Value
    requires i < |OptionalKeys|
  {
    if i == 0 then TextOrNull(p.middleName)
    else if i == 1 then TextOrNull(p.email)
    else if i == 2 then TextOrNull(p.phone)
    else if i == 3 then TextOrNull(p.dateOfBirth)
    else if i == 4 then TextOrNull(p.gender)
    else if i == 5 then TextOrNull(p.civilStatus)
    else if i == 6 then TextOrNull(p.address)
    else if i == 7 then IdOrNull(p.positionId)
    else if i == 8 then IdOrNull(p.branchId)
    else if i == 9 then TextOrNull(p.dateHired)
    else if i == 10 then SalaryOrNull(p.basicSalary)
    else if i == 11 then TextOrNull(p.rfid)
    else if i == 12 then TextOrNull(p.sss)
    else if i == 13 then TextOrNull(p.philhealth)
    else if i == 14 then TextOrNull(p.pagibig)
    else if i == 15 then TextOrNull(p.tin)
    else if i == 16 then TextOrNull(p.bankName)
    else if i == 17 then TextOrNull(p.bankAccount)
    else if i == 18 then TextOrNull(p.emergencyContactName)
    else TextOrNull(p.emergencyContactPhone)
  }

  /** The members of the JSON object literal, in order. */
  function JsonEntries(p: Payload): (r: seq<(string, Value)>)
    ensures |r| == |BodyKeys|
    ensures forall i :: 0 <= i < |r| ==> r[i].0 == BodyKeys[i]
  {
    [("employee_id", VStr(p.employeeId)), ("first_name", VStr(p.firstName)),
     ("last_name", VStr(p.lastName)), ("status", VStr(StatusOrDefault(p)))]
    + seq(|OptionalKeys|, i requires 0 <= i < |OptionalKeys| => (OptionalKeys[i], OptionalJson(p, i)))
  }

  /** The object a list of members denotes; a later member with the same key wins. */
  function MapOf(entries: seq<(string, Value)>): map<string, Value>
    decreases |entries|
  {
    if entries == [] then map[]
    else MapOf(entries[..|entries| - 1])[entries[|entries| - 1].0 := entries[|entries| - 1].1]
  }

  lemma {:induction false} MapOfKeys(entries: seq<(string, Value)>, k: string)
    ensures k in MapOf(entries) <==> exists i :: 0 <= i < |entries| && entries[i].0 == k
    decreases |entries|
  {
    if entries != [] {
      var init := entries[..|entries| - 1];
      MapOfKeys(init, k);
      if k in MapOf(init) {
        var i :| 0 <= i < |init| && init[i].0 == k;
        assert entries[i] == init[i];
      }
      forall i | 0 <= i < |init|
        ensures entries[i] == init[i]
      {
      }
    }
  }

  lemma {:induction false} MapOfLookup(entries: seq<(string, Value)>, i: nat)
    requires i < |entries|
    requires forall j :: i < j < |entries| ==> entries[j].0 != entries[i].0
    ensures entries[i].0 in MapOf(entries) && MapOf(entries)[entries[i].0] == entries[i].1
    decreases |entries|
  {
    var init := entries[..|entries| - 1];
    if i < |init| {
      assert init[i] == entries[i];
      forall j | i < j < |init|
        ensures init[j].0 != init[i].0
      {
        assert init[j] == entries[j];
      }
      MapOfLookup(init, i);
    }
  }

  /** The JSON body of storeEmployee and updateEmployee: every field, null when absent. */
  function JsonBody(p: Payload): map<string, Value> {
    MapOf(JsonEntries(p))
  }

  /** The JSON body has every field key and no other. */
  lemma JsonBodyKeys(p: Payload, k: string)
    ensures k in JsonBody(p) <==> k in BodyKeys
  {
    MapOfKeys(JsonEntries(p), k);
    if k in BodyKeys {
      var i :| 0 <= i < |BodyKeys| && BodyKeys[i] == k;
      assert JsonEntries(p)[i].0 == k;
    }
  }

  /** The id stays out of the body, since it goes in the URL; the photo travels only in a multipart form. */
  lemma JsonBodyOmitsIdAndPhoto(p: Payload)
    ensures "id" !in JsonBody(p)
    ensures "photo" !in JsonBody(p)
  {
    JsonBodyKeys(p, "id");
    JsonBodyKeys(p, "photo");
  }

  /** The JSON status is never null: it defaults to "active". */
  lemma JsonBodyStatus(p: Payload)
    ensures "status" in JsonBody(p)
    ensures JsonBody(p)["status"] == VStr(if p.status.Some? then p.status.value else "active")
  {
    BodyKeysDistinct();
    MapOfLookup(JsonEntries(p), 3);
  }

  /** Each optional key carries the field as it is, null when absent, the empty string included. */
  lemma JsonOptionalField(p: Payload, i: nat)
    requires i < |OptionalKeys|
    ensures OptionalKeys[i] in JsonBody(p)
    ensures JsonBody(p)[OptionalKeys[i]] == OptionalJson(p, i)
  {
    BodyKeysDistinct();
    var entries := JsonEntries(p);
    assert entries[4 + i] == (OptionalKeys[i], OptionalJson(p, i));
    MapOfLookup(entries, 4 + i);
  }

  /** After normalising, an optional key of the JSON body is null when absent or empty, the field otherwise. */
  lemma NormalizedJsonField(p: Payload, i: nat)
    requires i < |OptionalKeys|
    ensures OptionalKeys[i] in Normalized(JsonBody(p))
    ensures Normalized(JsonBody(p))[OptionalKeys[i]] ==
      if OptionalJson(p, i) == VStr("") then VNull else OptionalJson(p, i)
  {
    JsonOptionalField(p, i);
  }

  /** An enum field that is absent, empty or allowed passes its rule once the body is normalised. */
  lemma JsonEnumPasses(p: Payload, i: nat, allowed: seq<string>)
    requires i < |OptionalKeys|
    requires OptionalJson(p, i) == VNull || OptionalJson(p, i) == VStr("") ||
      (OptionalJson(p, i).VStr? && OptionalJson(p, i).s in allowed)
    ensures PassesEnumRule(Normalized(JsonBody(p)), OptionalKeys[i], allowed)
  {
    NormalizedJsonField(p, i);
  }

  /** A salary that is absent or a non-negative whole number passes once the body is normalised. */
  lemma JsonSalaryPasses(p: Payload)
    requires p.basicSalary.None? || (p.basicSalary.value.SalaryNumber? && p.basicSalary.value.amount >= 0)
    ensures PassesSalaryRule(Normalized(JsonBody(p)))
  {
    NormalizedJsonField(p, 10);
    var v := Normalized(JsonBody(p))["basic_salary"];
    assert OptionalJson(p, 10) == SalaryOrNull(p.basicSalary);
    if p.basicSalary.Some? {
      assert v == VNum(p.basicSalary.value.amount as real);
    } else {
      assert v == VNull;
    }
  }

  /** An allowed or defaulted status passes once the body is normalised. */
  lemma JsonStatusPasses(p: Payload)
    requires p.status.None? || p.status.value in Statuses
    ensures PassesEnumRule(Normalized(JsonBody(p)), "status", Statuses)
  {
    JsonBodyStatus(p);
    NormalizedEffect(JsonBody(p));
    assert "active" in Statuses;
  }

  /**
   * A body whose enum fields are absent, empty or allowed, whose status is
   * absent or allowed, and whose salary is absent or a non-negative whole
   * number passes the server's enum and minimum rules once normalised.
   */
  lemma JsonBodyPassesRules(p: Payload)
    requires p.gender.None? || p.gender.value == "" || p.gender.value in Genders
    requires p.civilStatus.None? || p.civilStatus.value == "" || p.civilStatus.value in CivilStatuses
    requires p.status.None? || p.status.value in Statuses
    requires p.basicSalary.None? || (p.basicSalary.value.SalaryNumber? && p.basicSalary.value.amount >= 0)
    ensures PassesEnumAndMinRules(Normalized(JsonBody(p)))
  {
    JsonEnumPasses(p, 4, Genders);
    JsonEnumPasses(p, 5, CivilStatuses);
    JsonSalaryPasses(p);
    JsonStatusPasses(p);
  }

  datatype Method = Post | Put | Delete

  datatype Body = NoBody | Json(fields: map<string, Value>) | Multipart(entries: seq<(string, FormValue)>)

  datatype HttpRequest = HttpRequest(verb: Method, url: string, body: Body)

  predicate HasPhotoFile(p: Payload) {
    p.photo.Some? && p.photo.value.PhotoFile?
  }

  function PayloadBody(p: Payload): (b: Body)
    ensures b.Multipart? <==> HasPhotoFile(p)
    ensures b.Json? <==> !HasPhotoFile(p)
  {
    if HasPhotoFile(p) then Multipart(PayloadEntries(p, true)) else Json(JsonBody(p))
  }

  /** The request storeEmployee sends: multipart with the photo when there is a File, JSON otherwise. */
  function StoreRequest(p: Payload): (r: HttpRequest)
    ensures r.verb == Post && r.url == "/employees"
    ensures r.body.Multipart? <==> HasPhotoFile(p)
    ensures r.body.Multipart? ==> r.body.entries == PayloadEntries(p, true)
    ensures r.body.Json? ==> r.body.fields == JsonBody(p)
  {
    HttpRequest(Post, "/employees", PayloadBody(p))
  }

  function EmployeeUrl(id: int): string {
    "/employees/" + IntToDecimal(id)
  }

  /** The request updateEmployee sends: the id goes in the URL only; the body is as for a store. */
  function UpdateRequest(id: int, p: Payload): (r: HttpRequest)
    ensures r.verb == Put && r.url == EmployeeUrl(id)
    ensures r.body == StoreRequest(p).body
  {
    HttpRequest(Put, EmployeeUrl(id), PayloadBody(p))
  }

  /** The body a request built from a fresh FormData or from JsonBody carries. */
  method BuildBody(p: Payload) returns (b: Body)
    ensures b == PayloadBody(p)
  {
    if HasPhotoFile(p) {
      var fd := new FormData();
      AppendPayloadToFormData(fd, p, true);
      b := Multipart(fd.entries);
    } else {
      b := Json(JsonBody(p));
    }
  }

  /** storeEmployee. */
  method StoreEmployee(p: Payload) returns (r: HttpRequest)
    ensures r == StoreRequest(p)
  {
    var body := BuildBody(p);
    r := HttpRequest(Post, "/employees", body);
  }

  /** updateEmployee: the id is split off into the URL, the rest sent as for a store. */
  method UpdateEmployee(id: int, p: Payload) returns (r: HttpRequest)
    ensures r == UpdateRequest(id, p)
  {
    var body := BuildBody(p);
    r := HttpRequest(Put, EmployeeUrl(id), body);
  }

  /** Different employees are updated at different URLs. */
  lemma UpdateUrlsDistinct(id1: int, id2: int)
    requires id1 != id2
    ensures EmployeeUrl(id1) != EmployeeUrl(id2)
  {
    var prefix := "/employees/";
    if EmployeeUrl(id1) == EmployeeUrl(id2) {
      assert EmployeeUrl(id1)[|prefix|..] == IntToDecimal(id1);
      assert EmployeeUrl(id2)[|prefix|..] == IntToDecimal(id2);
      IntToDecimalInjective(id1, id2);
    }
  }

  function DeleteRequest(id: int): HttpRequest {
    HttpRequest(Delete, EmployeeUrl(id), NoBody)
  }

  function ForceDeleteRequest(id: int): HttpRequest {
    HttpRequest(Delete, EmployeeUrl(id) + "/force", NoBody)
  }

  /** A soft delete and a permanent delete never go to the same URL. */
  lemma DeleteUrlsDiffer(id1: int, id2: int)
    ensures DeleteRequest(id1).url != ForceDeleteRequest(id2).url
  {
    var u1 := EmployeeUrl(id1);
    var u2 := EmployeeUrl(id2) + "/force";
    var d := IntToDecimal(id1);
    assert u1[|u1| - 1] == d[|d| - 1];
    assert IsAsciiDigit(d[|d| - 1]) by {
      if id1 < 0 {
        assert d[|d| - 1] == NatToDecimal(-id1)[|NatToDecimal(-id1)| - 1];
      }
    }
    assert u2[|u2| - 1] == 'e';
  }
}
