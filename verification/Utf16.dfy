/** String lengths as the program counts them: UTF-16 code units. */
module Utf16 {

  predicate IsWide(c: char) { c > '\U{FFFF}' }

  function Utf16Length(s: string): nat {
    if s == "" then 0 else (if IsWide(s[0]) then 2 else 1) + Utf16Length(s[1..])
  }

  lemma {:induction false} LengthAdds(a: string, b: string)
    ensures Utf16Length(a + b) == Utf16Length(a) + Utf16Length(b)
  {
    if a == "" {
      assert a + b == b;
    } else {
      assert (a + b)[0] == a[0] && (a + b)[1..] == a[1..] + b;
      LengthAdds(a[1..], b);
    }
  }

  lemma {:induction false} NarrowLength(s: string)
    requires forall i :: 0 <= i < |s| ==> !IsWide(s[i])
    ensures Utf16Length(s) == |s|
  {
    if s != "" { NarrowLength(s[1..]); }
  }
}
