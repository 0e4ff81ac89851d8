/** Vocabulary shared by every component of the model. */
module Common {
  datatype Option<+T> = None | Some(value: T)

  type Bytes = seq<bv8>

  /** Rows, evidence files and tokens are named by drawn UUIDs. Fixed-width hexadecimal text
      orders like the number it spells, so a number stands for the text. */
  type Id = nat

  /** Clock readings, in seconds. Nothing forces two readings to be ordered. */
  type Clock = real

  /** How a transaction looks from outside: it returned, it raised after a rollback, or its
      process died before it could do either. */
  datatype Outcome<+T, +E> = Returned(value: T) | Raised(error: E) | Crashed

  /* ---- Spelling ---- */

  predicate IsUpper(c: char) {
    c in "ABCDEFGHIJKLMNOPQRSTUVWXYZ"
  }

  /** The same character, or one of them the small form of the other, an ASCII capital. */
  predicate SameLetter(a: char, b: char) {
    || a == b
    || (IsUpper(a) && b as int == a as int + 32)
    || (IsUpper(b) && a as int == b as int + 32)
  }

  lemma UpperIsRange(c: char)
    ensures IsUpper(c) <==> 65 <= c as int <= 90
  {
    var letters := "ABCDEFGHIJKLMNOPQRSTUVWXYZ";
    assert forall i | 0 <= i < 26 :: letters[i] as int == 65 + i;
    if 65 <= c as int <= 90 {
      assert letters[c as int - 65] == c;
    }
  }
}
