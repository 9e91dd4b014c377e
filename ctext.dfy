/** C text as the note store sees it: NUL-terminated byte strings and the
    bounded copy that `snprintf(buf, size, "%s", t)` performs. */
module CText {

  /** One `char` of the C program. */
  newtype byte = b: int | 0 <= b < 256

  /** The bytes of a buffer or of a string argument, terminator not included. */
  type Text = seq<byte>

  const NUL: byte := 0

  /** The C string that a byte sequence denotes: the bytes before its first NUL. */
  function CStr(t: Text): (r: Text)
    ensures |r| <= |t| && r == t[..|r|]
    ensures NUL !in r
    ensures |r| == |t| || t[|r|] == NUL
  {
    if t == [] || t[0] == NUL then [] else [t[0]] + CStr(t[1..])
  }

  /** The bytes `snprintf(buf, size, "%s", t)` leaves in `buf` before the
      terminating NUL it always writes: the C string `t`, cut to `size - 1`. */
  function Snprintf(t: Text, size: nat): (r: Text)
    requires size >= 1
    ensures |r| < size && NUL !in r
    ensures |r| <= |t| && r == t[..|r|]
    // the copy stops early only where the C string `t` ends
    ensures |r| < size - 1 ==> |r| == |t| || t[|r|] == NUL
  {
    var c := CStr(t);
    if |c| < size then c else c[..size - 1]
  }

  /** A C string that fits the buffer is copied unchanged. */
  lemma SnprintfKeepsFittingString(t: Text, size: nat)
    requires size >= 1 && |t| < size && NUL !in t
    ensures Snprintf(t, size) == t
  {
  }

  /** Copying a copy through a buffer of the same size changes nothing. */
  lemma SnprintfIdempotent(t: Text, size: nat)
    requires size >= 1
    ensures Snprintf(Snprintf(t, size), size) == Snprintf(t, size)
  {
    SnprintfKeepsFittingString(Snprintf(t, size), size);
  }
}
