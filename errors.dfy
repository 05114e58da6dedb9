/**
 * The exception values of include/ws-gw.h and the text their `what()`
 * returns. Every message is kept as a `std::string`; `what()` hands it out
 * as a `char const *`, so whoever reads it back as a C string sees only the
 * part before the first NUL.
 */
module Errors {
  import opened Buffers

  /** The dynamic type of an exception that derives from `std::exception`. */
  datatype ErrorType =
    | RuntimeError      // `std::runtime_error`, as thrown by handlers
    | MagicError        // `MagicError`
    | RemoteException   // `RemoteException`
    | ParseFailed       // `ParseFailed`
    | PlainException    // an object whose dynamic type is exactly `std::exception`

  /** A thrown object: a `std::exception` with its message, or anything else. */
  datatype Exception =
    | Std(kind: ErrorType, message: CppString)
    | NonStd(description: CppString)

  const NUL: char8 := '\0'

  /** The C string a `char const *` to `s` denotes: `s` up to its first NUL. */
  function CStr(s: CppString): (r: CppString)
    ensures r <= s
    ensures NUL !in r
    ensures |r| < |s| ==> s[|r|] == NUL
  {
    if s == [] || s[0] == NUL then [] else [s[0]] + CStr(s[1..])
  }

  /** The three facts CStr ensures pin its result down. */
  lemma CStrUnique(s: CppString, r: CppString)
    requires r <= s && NUL !in r && (|r| < |s| ==> s[|r|] == NUL)
    ensures r == CStr(s)
  {
  }

  /** A NUL-free prefix survives the C-string reading of a concatenation. */
  lemma {:induction false} CStrAppend(a: CppString, b: CppString)
    requires NUL !in a
    ensures CStr(a + b) == a + CStr(b)
  {
    var r := a + CStr(b);
    assert r <= a + b;
    if |r| < |a + b| {
      assert (a + b)[|r|] == b[|CStr(b)|];
    }
    CStrUnique(a + b, r);
  }

  /** `what()`: the message read as a C string. */
  function What(e: Exception): (r: CppString)
    requires e.Std?
    ensures r <= e.message && NUL !in r
    ensures |r| < |e.message| ==> e.message[|r|] == NUL
  {
    CStr(e.message)
  }

  /**
   * `MagicError(char const *expected, char const *actual)`: both arguments are
   * read as C strings into "Expected magic <expected>, got <actual>".
   */
  function NewMagicError(expected: CppString, actual: CppString): (e: Exception)
    ensures e.Std? && e.kind == MagicError
    ensures What(e) == "Expected magic " + CStr(expected) + ", got " + CStr(actual)
    ensures NUL !in expected && NUL !in actual ==>
              What(e) == "Expected magic " + expected + ", got " + actual
  {
    var head := "Expected magic " + CStr(expected) + ", got ";
    var text := head + CStr(actual);
    assert NUL !in head;
    CStrAppend(head, CStr(actual));
    CStrAppend(CStr(actual), []);
    assert CStr(actual) + [] == CStr(actual);
    assert NUL !in actual ==> CStr(actual) == actual by {
      if NUL !in actual { CStrAppend(actual, []); assert actual + [] == actual; }
    }
    assert NUL !in expected ==> CStr(expected) == expected by {
      if NUL !in expected { CStrAppend(expected, []); assert expected + [] == expected; }
    }
    Std(MagicError, text)
  }
}
