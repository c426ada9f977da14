/** Values shared by every part of the model: optional values, the exceptions the
    core can raise, and the few string operations it relies on. */
module Common {

  datatype Option<+T> = None | Some(value: T)

  /** The .NET exceptions the core raises or lets through. */
  datatype Error =
    | KeyNotFound        // KeyNotFoundException
    | NotSupported       // NotSupportedException
    | NullReference      // NullReferenceException
    | InvalidCast        // InvalidCastException
    | InvalidOperation   // InvalidOperationException

  datatype Result<+T> = Ok(value: T) | Err(error: Error)

  /** The result of an operation that returns nothing but may throw. */
  datatype Outcome = Pass | Fail(error: Error)

  predicate IsUpper(c: char) { 'A' <= c <= 'Z' }

  function LowerChar(c: char): (r: char)
    ensures !IsUpper(r)
    ensures !IsUpper(c) ==> r == c
    ensures IsUpper(c) ==> r as int == c as int + 32
  {
    if IsUpper(c) then (c as int + 32) as char else c
  }

  /** `ToLowerInvariant` restricted to ASCII letters. */
  function Lower(s: string): (r: string)
    ensures |r| == |s|
    ensures forall i :: 0 <= i < |r| ==> !IsUpper(r[i])
    ensures forall i :: 0 <= i < |s| && !IsUpper(s[i]) ==> r[i] == s[i]
    ensures forall i :: 0 <= i < |s| && IsUpper(s[i]) ==> r[i] == (s[i] as int + 32) as char
  {
    if s == [] then [] else [LowerChar(s[0])] + Lower(s[1..])
  }

  /** Lower-casing twice is lower-casing once. */
  lemma {:induction false} LowerIdempotent(s: string)
    ensures Lower(Lower(s)) == Lower(s)
  {
    var r := Lower(s);
    assert forall i :: 0 <= i < |r| ==> !IsUpper(r[i]);
    LowerOfLowered(r);
  }

  lemma {:induction false} LowerOfLowered(s: string)
    requires forall i :: 0 <= i < |s| ==> !IsUpper(s[i])
    ensures Lower(s) == s
  {
    if s != [] {
      assert !IsUpper(s[0]);
      LowerOfLowered(s[1..]);
    }
  }

  /** `string.Join(' ', parts)`. */
  function JoinWithSpace(parts: seq<string>): string
  {
    if |parts| == 0 then ""
    else if |parts| == 1 then parts[0]
    else parts[0] + " " + JoinWithSpace(parts[1..])
  }

  /** Joining one more part adds one separator and that part at the end. */
  lemma {:induction false} JoinWithSpaceAppend(parts: seq<string>, last: string)
    requires |parts| > 0
    ensures JoinWithSpace(parts + [last]) == JoinWithSpace(parts) + " " + last
  {
    if |parts| == 1 {
      assert parts + [last] == [parts[0], last];
      assert [last][1..] == [];
    } else {
      assert (parts + [last])[1..] == parts[1..] + [last];
      JoinWithSpaceAppend(parts[1..], last);
    }
  }

  /** The reserved prefix of a CSS isolation scope attribute: the list pattern
      `['b', '-', ..]`. */
  predicate HasScopePrefix(s: string)
  {
    |s| >= 2 && s[0] == 'b' && s[1] == '-'
  }
}
