/** The one value type every node of the graph holds, and the JavaScript array
    operations the list node performs on its backing array. */
module Values {

  /** A JavaScript value as far as the graph needs one: `undefined`, a number
      (integers only), a string, or an array of values. */
  datatype Value = Absent | Num(n: int) | Str(s: string) | Arr(elems: seq<Value>)

  /** `v[i]` on the backing array of a list: the element when `i` is an index
      of the array, `undefined` otherwise (never a failure). */
  function At(v: Value, i: int): Value
  {
    if v.Arr? && 0 <= i < |v.elems| then v.elems[i] else Absent
  }

  /** `k` holes: slots that read as `undefined`. */
  function Holes(k: nat): (r: seq<Value>)
    ensures |r| == k && forall j :: 0 <= j < k ==> r[j] == Absent
  {
    seq(k, _ => Absent)
  }

  /** `xs[i] = x` on a JavaScript array with a non-negative index: in range it
      replaces one element; past the end it grows the array to `i + 1`, the
      slots in between being holes. */
  function Write(xs: seq<Value>, i: nat, x: Value): (r: seq<Value>)
  {
    if i < |xs| then xs[i := x] else xs + Holes(i - |xs|) + [x]
  }

  lemma WriteSpec(xs: seq<Value>, i: nat, x: Value)
    ensures |Write(xs, i, x)| == if i < |xs| then |xs| else i + 1
    ensures At(Arr(Write(xs, i, x)), i) == x
    ensures forall j :: 0 <= j < |xs| && j != i ==> Write(xs, i, x)[j] == xs[j]
    ensures forall j :: j != i ==> At(Arr(Write(xs, i, x)), j) == At(Arr(xs), j)
  {
    var r := Write(xs, i, x);
    if i >= |xs| {
      assert r[i] == x;
      forall j | j != i ensures At(Arr(r), j) == At(Arr(xs), j) {
        if |xs| <= j < i {
          assert r[j] == Holes(i - |xs|)[j - |xs|];
        }
      }
    }
  }

  /** The position `Array.prototype.splice(start, 0, x)` inserts at on an
      array of length `len`: a negative start counts from the end, and the
      result is clamped to `0..len`. */
  function SpliceStart(len: nat, start: int): (p: nat)
    ensures p <= len
    ensures 0 <= start <= len ==> p == start
  {
    if start < 0 then (if len + start < 0 then 0 else len + start)
    else if start > len then len
    else start
  }

  /** `x` inserted at position `p`; what follows `p` shifts up by one. */
  function Insert(xs: seq<Value>, p: nat, x: Value): (r: seq<Value>)
    requires p <= |xs|
    ensures |r| == |xs| + 1
    ensures r[p] == x
    ensures forall j :: 0 <= j < p ==> r[j] == xs[j]
    ensures forall j :: p <= j < |xs| ==> r[j + 1] == xs[j]
  {
    xs[..p] + [x] + xs[p..]
  }

  /** Decimal text of an integer, as JavaScript prints a whole number. */
  function NumberText(n: int): (s: string)
    ensures |s| > 0
  {
    if n < 0 then "-" + Digits(-n) else Digits(n)
  }

  function Digits(n: nat): (s: string)
    ensures |s| > 0 && forall j :: 0 <= j < |s| ==> '0' <= s[j] <= '9'
  {
    if n < 10 then [DigitChar(n)] else Digits(n / 10) + [DigitChar(n % 10)]
  }

  function DigitChar(d: nat): (c: char)
    requires d < 10
    ensures '0' <= c <= '9'
  {
    ('0' as int + d) as char
  }

  /** JavaScript's string conversion (template literals, `String(v)`). An
      array prints its elements joined by commas, `undefined` ones as empty. */
  function Show(v: Value): string
    decreases v
  {
    match v
    case Absent => "undefined"
    case Num(n) => NumberText(n)
    case Str(s) => s
    case Arr(xs) =>
      Join(seq(|xs|, j requires 0 <= j < |xs| => if xs[j].Absent? then "" else Show(xs[j])))
  }

  function Join(parts: seq<string>): string
  {
    if |parts| == 0 then ""
    else if |parts| == 1 then parts[0]
    else parts[0] + "," + Join(parts[1..])
  }

  /** ASCII upper-casing, character by character. */
  function UpperText(s: string): (r: string)
    ensures |r| == |s|
  {
    seq(|s|, j requires 0 <= j < |s| => if 'a' <= s[j] <= 'z' then (s[j] as int - 32) as char else s[j])
  }
}
