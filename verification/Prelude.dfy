/** What several components share. */
module Prelude {

  datatype Option<+T> = None | Some(value: T)

  predicate Distinct<T(==)>(s: seq<T>) {
    forall i, j :: 0 <= i < j < |s| ==> s[i] != s[j]
  }

  function Min(a: nat, b: nat): nat {
    if a < b then a else b
  }

  type Byte = b: int | 0 <= b < 256

  type Bytes = seq<Byte>

  /** A UTF-16 code unit: the elements of a JavaScript string. */
  type CodeUnit = u: int | 0 <= u < 0x1_0000

  type Text = seq<CodeUnit>

  predicate IsLineTerminator(u: CodeUnit) {
    u == 0x0A || u == 0x0D || u == 0x2028 || u == 0x2029
  }

  predicate OneLine(t: Text) {
    forall k :: 0 <= k < |t| ==> !IsLineTerminator(t[k])
  }
}
