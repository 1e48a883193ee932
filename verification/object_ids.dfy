/** Store and user ids are database object ids. The service converts id
    strings with `Types.ObjectId.createFromHexString` and compares them through
    `toString()`, which prints the twelve id bytes as 24 lower-case hex
    digits. */
module ObjectIds {
  import opened Wrappers
  import opened Errors

  predicate IsHexDigit(c: char) {
    ('0' <= c <= '9') || ('a' <= c <= 'f') || ('A' <= c <= 'F')
  }

  predicate IsLowerHexDigit(c: char) {
    ('0' <= c <= '9') || ('a' <= c <= 'f')
  }

  function LowerHexDigit(c: char): (d: char)
    requires IsHexDigit(c)
    ensures IsLowerHexDigit(d)
    ensures IsLowerHexDigit(c) ==> d == c
  {
    if 'A' <= c <= 'F' then (c as int - 'A' as int + 'a' as int) as char else c
  }

  /** The printed form of an object id. */
  predicate IsCanonical(s: string) {
    |s| == 24 && forall i :: 0 <= i < |s| ==> IsLowerHexDigit(s[i])
  }

  predicate IsHexId(s: string) {
    |s| == 24 && forall i :: 0 <= i < |s| ==> IsHexDigit(s[i])
  }

  /** `Types.ObjectId.createFromHexString(s).toString()`: defined exactly for
      24 hex digits, and then the same digits in lower case; anything else
      makes the library throw, modelled as `None`. */
  function CreateFromHexString(s: string): (r: Option<string>)
    ensures r.Some? <==> IsHexId(s)
    ensures r.Some? ==> IsCanonical(r.value)
    ensures r.Some? ==> forall i :: 0 <= i < |s| ==> r.value[i] == LowerHexDigit(s[i])
  {
    if IsHexId(s) then Some(seq(|s|, i requires 0 <= i < |s| => LowerHexDigit(s[i]))) else None
  }

  /** What the conversion throws on a malformed id; the library's exact
      wording is not modelled. */
  const MalformedIdError: Error := RuntimeError("malformed object id")

  /** Printed ids parse back to themselves. */
  lemma CanonicalRoundTrip(s: string)
    requires IsCanonical(s)
    ensures CreateFromHexString(s) == Some(s)
  {
    assert IsHexId(s);
    var r := CreateFromHexString(s).value;
    assert |r| == |s|;
    assert forall i :: 0 <= i < |s| ==> r[i] == s[i];
    assert r == s;
  }

  /** Parsing a printed id again changes nothing. */
  lemma ParseIdempotent(s: string)
    requires CreateFromHexString(s).Some?
    ensures CreateFromHexString(CreateFromHexString(s).value) == CreateFromHexString(s)
  {
    CanonicalRoundTrip(CreateFromHexString(s).value);
  }
}
