/** Reading a decoded object into a Go struct: an absent or null member leaves the zero value, a
    member of another type is an error. */
module Fields {
  import opened Text
  import opened Json

  const TWO63 := 0x8000_0000_0000_0000

  predicate Int64(n: int) { -TWO63 <= n < TWO63 }

  /** Two's-complement wrap-around of a 64-bit `int`. */
  function Wrap64(n: int): (r: int)
    ensures Int64(r) && (Int64(n) ==> r == n)
  {
    (n + TWO63) % (2 * TWO63) - TWO63
  }

  function StrOf(m: map<string, Json>, k: string): Option<string> {
    if k !in m || m[k].Null? then Some("")
    else if m[k].Str? then Some(m[k].s)
    else None
  }

  function IntOf(m: map<string, Json>, k: string): Option<int> {
    if k !in m || m[k].Null? then Some(0)
    else if m[k].Num? && IntValue(m[k].lit).Some? && Int64(IntValue(m[k].lit).value) then IntValue(m[k].lit)
    else None
  }

  function BoolOf(m: map<string, Json>, k: string): Option<bool> {
    if k !in m || m[k].Null? then Some(false)
    else if m[k].Bool? then Some(m[k].b)
    else None
  }

  /** An absent or null member leaves the zero value, one of the type gives its value, any other is an error. */
  lemma MemberReads(m: map<string, Json>, k: string)
    ensures StrOf(m, k) == if k !in m || m[k] == Null then Some("") else if m[k].Str? then Some(m[k].s) else None
    ensures BoolOf(m, k) == if k !in m || m[k] == Null then Some(false) else if m[k].Bool? then Some(m[k].b) else None
    ensures k !in m || m[k] == Null ==> IntOf(m, k) == Some(0)
    ensures k in m && m[k] != Null ==>
              forall n :: IntOf(m, k) == Some(n) <==> m[k].Num? && IntValue(m[k].lit) == Some(n) && Int64(n)
  {
  }

  /** A 64-bit number that overflows comes out 2^64 away. */
  lemma WrapIs(n: int)
    ensures (Wrap64(n) - n) % 0x1_0000_0000_0000_0000 == 0
  {
  }

  lemma IntOfDecimal(m: map<string, Json>, k: string, n: int)
    requires k in m && m[k] == Num(Decimal(n)) && Int64(n)
    ensures IntOf(m, k) == Some(n)
  {
    IntRoundTrip(n);
  }
}
