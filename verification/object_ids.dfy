/** Document identifiers. A stored identifier is written as 24 lower-case
    hexadecimal digits; a request carries free text that Mongoose accepts as
    an identifier when it is 24 hexadecimal digits in either case. */
module ObjectIds {
  import opened Common

  predicate IsHexDigit(c: char)
  {
    '0' <= c <= '9' || 'a' <= c <= 'f' || 'A' <= c <= 'F'
  }

  predicate IsLowerHexDigit(c: char)
  {
    '0' <= c <= '9' || 'a' <= c <= 'f'
  }

  /** `mongoose.Types.ObjectId.isValid` on a string. */
  predicate IsValid(s: string)
  {
    |s| == 24 && forall i | 0 <= i < |s| :: IsHexDigit(s[i])
  }

  predicate IsCanonical(s: string)
  {
    |s| == 24 && forall i | 0 <= i < |s| :: IsLowerHexDigit(s[i])
  }

  /** An identifier in the form the database prints it (`_id.toString()`). */
  type ObjectId = s: string | IsCanonical(s) witness "000000000000000000000000"

  function LowerHexDigit(c: char): (r: char)
    requires IsHexDigit(c)
    ensures IsLowerHexDigit(r)
    ensures IsLowerHexDigit(c) ==> r == c
  {
    if 'A' <= c <= 'F' then (c as int + 32) as char else c
  }

  /** Casting request text to an identifier, as a query filter or
      `new ObjectId(text)` does: valid text denotes the identifier with the
      same digits, letter case ignored; anything else is a cast failure. */
  function Cast(s: string): (r: Option<ObjectId>)
    ensures r.Some? <==> IsValid(s)
    ensures r.Some? ==> forall i | 0 <= i < 24 :: r.value[i] == LowerHexDigit(s[i])
  {
    if IsValid(s) then
      var t := seq(24, i requires 0 <= i < 24 => LowerHexDigit(s[i]));
      Some(t)
    else
      None
  }

  /** Printing an identifier and casting the text back gives the identifier. */
  lemma CastPrinted(id: ObjectId)
    ensures Cast(id) == Some(id)
  {
    assert Cast(id).value == id;
  }

  /** Two spellings that differ only in letter case denote the same identifier. */
  lemma CastIgnoresCase(s: string, t: string)
    requires IsValid(s) && IsValid(t)
    requires forall i | 0 <= i < 24 :: LowerHexDigit(s[i]) == LowerHexDigit(t[i])
    ensures Cast(s) == Cast(t)
  {
    assert Cast(s).value == Cast(t).value;
  }
}
