/** Parsed JSON values and the messages that pass between the daemon and a browser client. */
module Wamp {
  import opened Bytes

  datatype Json =
    | Null
    | Bool(b: bool)
    | Num(r: real)
    | Str(s: string)
    | Arr(items: seq<Json>)
    | Obj(fields: seq<(string, Json)>)

  /** The i-th item, or None past the end (a null pointer in the C code). */
  function Item(items: seq<Json>, i: nat): Option<Json> {
    if i < |items| then Some(items[i]) else None
  }

  function StrItem(items: seq<Json>, i: nat): Option<string> {
    match Item(items, i)
    case Some(Str(s)) => Some(s)
    case _ => None
  }

  /** The first field of that name. */
  function Field(fields: seq<(string, Json)>, name: string): Option<Json> {
    if fields == [] then None
    else if fields[0].0 == name then Some(fields[0].1)
    else Field(fields[1..], name)
  }

  predicate IsTrue(j: Option<Json>) {
    j == Some(Bool(true))
  }

  /** An answer that counts as yes: true, or a number other than zero. */
  predicate TrueOrNonzero(j: Option<Json>) {
    match j
    case Some(Bool(b)) => b
    case Some(Num(x)) => x != 0.0
    case _ => false
  }

  predicate IsNumber(j: Option<Json>) {
    j.Some? && j.value.Num?
  }

  /** A cast to int drops the fraction, towards zero. */
  function Truncate(r: real): int {
    if r >= 0.0 then r.Floor else -((-r).Floor)
  }

  function Numbers(xs: seq<real>): Json {
    Arr(seq(|xs|, i requires 0 <= i < |xs| => Num(xs[i])))
  }

  /** Whether a reply carries n numbers. */
  predicate Carries(j: Option<Json>, n: nat) {
    j.Some? && j.value.Arr? && |j.value.items| >= n
    && forall i :: 0 <= i < n ==> j.value.items[i].Num?
  }

  /** How many items the copying loop takes before it meets something that is not a number. */
  function Copied(j: Option<Json>, n: nat): (k: nat)
    ensures k <= n && (k > 0 ==> j.Some? && j.value.Arr? && k <= |j.value.items|)
    ensures forall i :: 0 <= i < k ==> j.value.items[i].Num?
    ensures k == n ==> n == 0 || Carries(j, n)
    ensures Carries(j, n) ==> k == n
    ensures k < n && j.Some? && j.value.Arr? && |j.value.items| >= n ==> !j.value.items[k].Num?
  {
    if !(j.Some? && j.value.Arr? && |j.value.items| >= n) then 0 else LeadingNumbers(j.value.items, n)
  }

  function LeadingNumbers(items: seq<Json>, n: nat): (k: nat)
    requires n <= |items|
    ensures k <= n && forall i :: 0 <= i < k ==> items[i].Num?
    ensures k < n ==> !items[k].Num?
  {
    if n == 0 || !items[0].Num? then 0 else
      var k := 1 + LeadingNumbers(items[1..], n - 1);
      assert forall i :: 0 < i < k ==> items[i] == items[1..][i - 1];
      assert k < n ==> items[k] == items[1..][k - 1];
      k
  }

  /** The array after copying: a failing copy leaves the part already overwritten. */
  function Overwrite(before: seq<real>, j: Option<Json>): (r: seq<real>)
    ensures |r| == |before|
  {
    var k := Copied(j, |before|);
    seq(|before|, i requires 0 <= i < |before| => if i < k then j.value.items[i].r else before[i])
  }

  /** Once the reply carries enough numbers, nothing of the old array is left. */
  lemma OverwriteForgets(a: seq<real>, b: seq<real>, j: Option<Json>)
    requires |a| == |b| && Carries(j, |a|)
    ensures Overwrite(a, j) == Overwrite(b, j)
  {
  }

  /** The array then holds the numbers of the reply. */
  lemma OverwriteReads(a: seq<real>, j: Option<Json>)
    requires Carries(j, |a|)
    ensures forall i :: 0 <= i < |a| ==> Overwrite(a, j)[i] == j.value.items[i].r
  {
  }

  /** The client's properties: model.extents, view.perspective, view.affine, view.extents, motion, views.front. */
  datatype Property = ModelExtents | ViewPerspective | ViewAffine | ViewExtents | MotionFlag | ViewsFront

  /** What the daemon sends; an Rpc reads or updates one property under a call id. */
  datatype Sent =
    | Welcome(session: string)
    | CallResult(callId: string, result: Json)
    | CallError(callId: string, uri: string, desc: string)
    | Rpc(callId: string, update: bool, prop: Property, value: Option<Json>)
}
