/** Texts that end at a terminator in a buffer, as C strings do. */
module CStrings {

  /** `buf` holds `text` and then the terminator. */
  predicate IsText<T(==)>(buf: seq<T>, text: seq<T>, nul: T) {
    |text| < |buf| && buf[..|text|] == text && buf[|text|] == nul && nul !in text
  }

  lemma TextLength<T>(buf: seq<T>, text: seq<T>, nul: T, n: nat)
    requires IsText(buf, text, nul) && n < |buf| && buf[n] == nul && nul !in buf[..n]
    ensures n == |text|
  {
  }

  method StrLen<T(==)>(buf: array<T>, nul: T, ghost text: seq<T>) returns (n: nat)
    requires IsText(buf[..], text, nul)
    ensures n == |text|
  {
    n := 0;
    while buf[n] != nul
      invariant n <= |text| && nul !in buf[..n]
      decreases |text| - n
    {
      assert buf[..n + 1] == buf[..n] + [buf[n]];
      n := n + 1;
    }
    TextLength(buf[..], text, nul, n);
  }

  /** `s` up to its first terminator. */
  function UpToNul<T(==)>(s: seq<T>, nul: T): (t: seq<T>)
    ensures t <= s && nul !in t && (|t| < |s| ==> s[|t|] == nul)
  {
    if s == [] || s[0] == nul then [] else [s[0]] + UpToNul(s[1..], nul)
  }

  /** strcpy of `source`, whose first `len` elements are followed by a terminator. */
  method StrCpy<T(==)>(target: array<T>, source: array<T>, nul: T, len: nat)
    requires target != source && len < source.Length && source[len] == nul
    requires |UpToNul(source[..len], nul)| < target.Length
    modifies target
    ensures var text := UpToNul(source[..len], nul);
      IsText(target[..], text, nul) && target[|text| + 1..] == old(target[|text| + 1..])
  {
    ghost var text := UpToNul(source[..len], nul);
    var i := 0;
    while source[i] != nul
      invariant i <= |text| && target[..i] == text[..i]
      invariant target[i..] == old(target[i..])
      decreases |text| - i
    {
      target[i] := source[i];
      i := i + 1;
    }
    target[i] := nul;
  }
}
