/** The structural check on imported data (scripts/importExport.js), over
    the value `JSON.parse` returns, and the export the check is meant to
    accept. */
module ImportExport {
  import opened Text
  import opened Calendar
  import opened Ledger
  import opened Validators

  /** A parsed JSON value; an object keeps its members in source order. */
  datatype Json =
    | JNull
    | JBool(b: bool)
    | JNumber(x: real)
    | JString(s: string)
    | JArray(items: seq<Json>)
    | JObject(members: seq<(string, Json)>)

  /** A property read `item.key`: absent, or a JSON value. */
  datatype Field = Undefined | Present(value: Json)

  /** `JSON.parse` keeps the last of repeated keys. */
  function Member(members: seq<(string, Json)>, key: string): Field
    decreases |members|
  {
    if members == [] then Undefined
    else if members[|members| - 1].0 == key then Present(members[|members| - 1].1)
    else Member(members[..|members| - 1], key)
  }

  /** The last member with the key is the one read. */
  lemma {:induction false} MemberLast(members: seq<(string, Json)>, key: string, j: int)
    requires 0 <= j < |members| && members[j].0 == key
    requires forall l :: j < l < |members| ==> members[l].0 != key
    ensures Member(members, key) == Present(members[j].1)
    decreases |members|
  {
    if j < |members| - 1 {
      MemberLast(members[..|members| - 1], key, j);
    }
  }

  /** `item.key` on a non-null value: only objects have these properties. */
  function Get(item: Json, key: string): Field {
    if item.JObject? then Member(item.members, key) else Undefined
  }

  predicate IsString(f: Field) { f.Present? && f.value.JString? }

  predicate IsNumber(f: Field) { f.Present? && f.value.JNumber? }

  /** `/^\d{4}-\d{2}-\d{2}$/`: the shape of a date, without ranges. */
  predicate DateShape(s: string) {
    && |s| == 10 && AllDigits(s[..4]) && s[4] == '-'
    && AllDigits(s[5..7]) && s[7] == '-' && AllDigits(s[8..])
  }

  /** The test applied to each element. */
  predicate ItemOk(item: Json) {
    && IsString(Get(item, "id"))
    && IsString(Get(item, "description"))
    && IsNumber(Get(item, "amount"))
    && Get(item, "amount").value.x >= 0.0
    && IsString(Get(item, "category"))
    && IsString(Get(item, "date"))
    && DateShape(Get(item, "date").value.s)
  }

  /** The outcome of the call: a result, or the `TypeError` of reading a
      property of `null` (which the import handler catches like a `false`). */
  datatype Outcome = Returns(ok: bool) | Throws

  /** `items.every(test)`: stops at the first element that fails, and throws
      on a `null` it reaches. */
  function Every(items: seq<Json>): Outcome
    decreases |items|
  {
    if items == [] then Returns(true)
    else if items[0] == JNull then Throws
    else if !ItemOk(items[0]) then Returns(false)
    else Every(items[1..])
  }

  /** `validateImport`. */
  function ValidateImport(data: Json): Outcome {
    if !data.JArray? || |data.items| == 0 then Returns(false) else Every(data.items)
  }

  /** `every` succeeds exactly when each element passes. */
  lemma {:induction false} EverySpec(items: seq<Json>)
    ensures Every(items) == Returns(true) <==> forall i :: 0 <= i < |items| ==> ItemOk(items[i])
    decreases |items|
  {
    if items != [] {
      EverySpec(items[1..]);
      if items[0] == JNull {
        assert !ItemOk(items[0]);
      }
      if forall i :: 0 <= i < |items| ==> ItemOk(items[i]) {
        forall i | 0 <= i < |items| - 1 ensures ItemOk(items[1..][i]) {
          assert items[1..][i] == items[i + 1];
        }
      }
      if Every(items[1..]) == Returns(true) && ItemOk(items[0]) {
        forall i | 0 <= i < |items| ensures ItemOk(items[i]) {
          if i > 0 {
            assert items[i] == items[1..][i - 1];
          }
        }
      }
    }
  }

  /** The import is accepted exactly when the data is a non-empty array and
      every element passes; one failing element anywhere rejects it all. */
  lemma ValidateImportSpec(data: Json)
    ensures ValidateImport(data) == Returns(true) <==>
      data.JArray? && |data.items| > 0 && forall i :: 0 <= i < |data.items| ==> ItemOk(data.items[i])
  {
    if data.JArray? {
      EverySpec(data.items);
    }
  }

  /** In particular a negative amount anywhere rejects the import. */
  lemma NegativeAmountRejects(data: Json, i: int)
    requires data.JArray? && 0 <= i < |data.items|
    requires IsNumber(Get(data.items[i], "amount")) && Get(data.items[i], "amount").value.x < 0.0
    ensures ValidateImport(data) != Returns(true)
  {
    ValidateImportSpec(data);
  }

  /** The import check allows dates the form rejects, and everything the
      form accepts has the import's shape. */
  lemma DateShapeIsWeaker(s: string)
    ensures DateShape("2024-13-99") && !DatePattern("2024-13-99")
    ensures DatePattern(s) ==> DateShape(s)
  {
    assert AllDigits("2024-13-99"[5..7]);
    if DatePattern(s) {
      DatePatternByValue(s);
    }
  }

  // ----- export ------------------------------------------------------------

  /** A stored transaction as `JSON.stringify` writes it. */
  function ToJson(t: Transaction): Json {
    JObject([
      ("id", JString(t.id)),
      ("description", JString(t.description)),
      ("amount", JNumber(t.amount)),
      ("category", JString(t.category)),
      ("date", JString(DateString(t.date))),
      ("createdAt", JString(t.createdAt)),
      ("updatedAt", JString(t.updatedAt))])
  }

  /** The exported file: the array of all stored transactions. */
  function Export(ts: seq<Transaction>): Json {
    JArray(seq(|ts|, i requires 0 <= i < |ts| => ToJson(ts[i])))
  }

  /** A stored transaction with a non-negative amount and a four-digit year
      passes the element test. */
  lemma ExportedItemOk(t: Transaction)
    requires t.amount >= 0.0 && 0 <= t.date.year <= 9999
    ensures ItemOk(ToJson(t))
  {
    ToJsonFields(t);
    DateStringAccepted(t.date);
    DateShapeIsWeaker(DateString(t.date));
  }

  /** Reading the exported object's properties gives back the record's fields. */
  lemma ToJsonFields(t: Transaction)
    ensures Get(ToJson(t), "id") == Present(JString(t.id))
    ensures Get(ToJson(t), "description") == Present(JString(t.description))
    ensures Get(ToJson(t), "amount") == Present(JNumber(t.amount))
    ensures Get(ToJson(t), "category") == Present(JString(t.category))
    ensures Get(ToJson(t), "date") == Present(JString(DateString(t.date)))
  {
    var j := ToJson(t);
    RecordMembers(j.members, j.members[0].1, j.members[1].1, j.members[2].1, j.members[3].1,
                  j.members[4].1, j.members[5].1, j.members[6].1);
  }

  /** The members of an object with the seven record keys, in that order. */
  lemma RecordMembers(m: seq<(string, Json)>, id: Json, description: Json, amount: Json,
                      category: Json, date: Json, createdAt: Json, updatedAt: Json)
    requires m == [("id", id), ("description", description), ("amount", amount), ("category", category),
                   ("date", date), ("createdAt", createdAt), ("updatedAt", updatedAt)]
    ensures Member(m, "id") == Present(id) && Member(m, "description") == Present(description)
    ensures Member(m, "amount") == Present(amount) && Member(m, "category") == Present(category)
    ensures Member(m, "date") == Present(date)
  {
    MemberLast(m, "id", 0);
    MemberLast(m, "description", 1);
    MemberLast(m, "amount", 2);
    MemberLast(m, "category", 3);
    MemberLast(m, "date", 4);
  }

  /** A non-empty export of such transactions is accepted on import. */
  lemma ExportImports(ts: seq<Transaction>)
    requires |ts| > 0
    requires forall i :: 0 <= i < |ts| ==> ts[i].amount >= 0.0 && 0 <= ts[i].date.year <= 9999
    ensures ValidateImport(Export(ts)) == Returns(true)
  {
    var data := Export(ts);
    forall i | 0 <= i < |data.items| ensures ItemOk(data.items[i]) {
      ExportedItemOk(ts[i]);
    }
    ValidateImportSpec(data);
  }
}
