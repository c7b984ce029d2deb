/** NUL-terminated strings in character arrays. */
module CStrings {

  const NUL: char := '\0'

  /** The array holds `text`, ended by a NUL. */
  ghost predicate IsString(a: array<char>, text: string)
    reads a
  {
    NUL !in text && |text| < a.Length && a[..|text|] == text && a[|text|] == NUL
  }

  method StrLen(a: array<char>, ghost text: string) returns (n: nat)
    requires IsString(a, text)
    ensures n == |text|
  {
    n := 0;
    assert forall k :: 0 <= k < |text| ==> a[k] == text[k] && text[k] in text;
    while a[n] != NUL
      invariant n <= |text|
      decreases |text| - n
    {
      n := n + 1;
    }
  }

  /** `*d++ = c`. */
  method Put(a: array<char>, d: nat, c: char) returns (d': nat)
    requires d < a.Length
    modifies a
    ensures d' == d + 1 && a[..d'] == old(a[..d]) + [c]
    ensures forall k :: d' <= k < a.Length ==> a[k] == old(a[k])
  {
    a[d] := c;
    d' := d + 1;
  }

  /** `realloc`: a longer array that begins with the same text. */
  method Extend(a: array?<char>, len: nat, size: nat, ghost text: string) returns (r: array<char>)
    requires len == |text| < size && if a == null then text == "" else IsString(a, text)
    ensures fresh(r) && r.Length == size && r[..len] == text
  {
    r := new char[size](_ => NUL);
    forall k | 0 <= k < len {
      r[k] := a[k];
    }
  }
}
