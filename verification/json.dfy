/** The JSON values the dashboard sends as request bodies and query
    parameters. Object members keep their insertion order, as
    `JSON.stringify` writes them. */
module Json {
  import opened Wrappers

  datatype Json =
    | JNull
    | JBool(b: bool)
    | JNum(n: real)
    | JStr(s: string)
    | JArr(items: seq<Json>)
    | JObj(members: seq<(string, Json)>)

  /** The value of the first member named `key`. */
  function Lookup(members: seq<(string, Json)>, key: string): (r: Option<Json>)
    ensures r.Some? <==> exists i :: 0 <= i < |members| && members[i].0 == key
    ensures r.Some? ==> exists i :: 0 <= i < |members| && members[i] == (key, r.value)
  {
    if |members| == 0 then None
    else if members[0].0 == key then Some(members[0].1)
    else
      var r := Lookup(members[1..], key);
      assert forall i :: 0 <= i < |members| - 1 ==> members[1..][i] == members[i + 1];
      r
  }

  /** An object holding one member, or none when the value is `undefined`
      (which `JSON.stringify` drops). */
  function Field(key: string, value: Option<Json>): (r: Json)
    ensures r.JObj? && Lookup(r.members, key) == value
    ensures |r.members| <= 1
  {
    match value
    case Some(v) => JObj([(key, v)])
    case None => JObj([])
  }

  /** `x || null` on a form string: the empty string becomes `null`. */
  function TextOrNull(s: string): (r: Json)
    ensures r == JNull <==> s == ""
    ensures r != JNull ==> r == JStr(s)
  {
    if s == "" then JNull else JStr(s)
  }

  /** The member found for `key` is the first one carrying that name. */
  lemma {:induction false} LookupAt(members: seq<(string, Json)>, i: nat, key: string)
    requires i < |members| && members[i].0 == key
    requires forall j :: 0 <= j < i ==> members[j].0 != key
    ensures Lookup(members, key) == Some(members[i].1)
  {
    if i > 0 {
      LookupAt(members[1..], i - 1, key);
    }
  }

  /** No two members share a name. */
  predicate DistinctNames(members: seq<(string, Json)>) {
    forall i, j :: 0 <= i < j < |members| ==> members[i].0 != members[j].0
  }

  /** With distinct names every member is found under its own name. */
  lemma LookupDistinct(members: seq<(string, Json)>, i: nat)
    requires DistinctNames(members) && i < |members|
    ensures Lookup(members, members[i].0) == Some(members[i].1)
  {
    LookupAt(members, i, members[i].0);
  }

  /** Two member lists with the same names that differ only in the value
      of `changed` answer alike for every other name. */
  lemma {:induction false} LookupOtherKeys(a: seq<(string, Json)>, b: seq<(string, Json)>, changed: string, key: string)
    requires |a| == |b| && key != changed
    requires forall i :: 0 <= i < |a| ==> a[i].0 == b[i].0
    requires forall i :: 0 <= i < |a| && a[i].0 != changed ==> a[i].1 == b[i].1
    ensures Lookup(a, key) == Lookup(b, key)
  {
    if |a| > 0 && a[0].0 != key {
      LookupOtherKeys(a[1..], b[1..], changed, key);
    }
  }
}
