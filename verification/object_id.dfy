/**
 * BSON ObjectIds as the routes use them: `ObjectId(text)` accepts exactly
 * 24 hexadecimal characters (either case) and `str(oid)` prints them back in
 * lower case.
 */
module ObjectIds {
  import opened Options
  import Text

  type Nibble = x: int | 0 <= x < 16

  /** The 12 bytes of an ObjectId, as 24 hexadecimal digits. */
  datatype ObjectId = ObjectId(nibbles: seq<Nibble>)

  const ObjectIdLength := 24

  predicate WellFormed(o: ObjectId) {
    |o.nibbles| == ObjectIdLength
  }

  predicate IsHexChar(c: char) {
    ('0' <= c <= '9') || ('a' <= c <= 'f') || ('A' <= c <= 'F')
  }

  function HexValue(c: char): Nibble
    requires IsHexChar(c)
  {
    if '0' <= c <= '9' then (c as int) - ('0' as int)
    else if 'a' <= c <= 'f' then (c as int) - ('a' as int) + 10
    else (c as int) - ('A' as int) + 10
  }

  /** The lower-case digit `str(ObjectId)` prints for a nibble. */
  function HexChar(n: Nibble): (c: char)
    ensures IsHexChar(c) && HexValue(c) == n
    ensures !('A' <= c <= 'F')
  {
    if n < 10 then (('0' as int) + n) as char else (('a' as int) + n - 10) as char
  }

  /** What `ObjectId(text)` accepts without raising InvalidId. */
  predicate IsObjectIdText(s: string) {
    |s| == ObjectIdLength && forall k :: 0 <= k < |s| ==> IsHexChar(s[k])
  }

  function HexNibbles(s: string): (r: seq<Nibble>)
    requires forall k :: 0 <= k < |s| ==> IsHexChar(s[k])
    ensures |r| == |s|
    ensures forall k :: 0 <= k < |s| ==> r[k] == HexValue(s[k])
  {
    if s == [] then [] else [HexValue(s[0])] + HexNibbles(s[1..])
  }

  /** `ObjectId(text)`, `None` standing for the InvalidId it raises. */
  function ParseObjectId(s: string): (r: Option<ObjectId>)
    ensures r.Some? <==> IsObjectIdText(s)
    ensures r.Some? ==> WellFormed(r.value)
  {
    if IsObjectIdText(s) then Some(ObjectId(HexNibbles(s))) else None
  }

  /** `str(oid)`: 24 lower-case hexadecimal digits. */
  function ObjectIdText(o: ObjectId): (r: string)
    ensures |r| == |o.nibbles|
    ensures forall k :: 0 <= k < |r| ==> r[k] == HexChar(o.nibbles[k])
    decreases |o.nibbles|
  {
    if o.nibbles == [] then [] else [HexChar(o.nibbles[0])] + ObjectIdText(ObjectId(o.nibbles[1..]))
  }

  function LowerHex(c: char): char
    requires IsHexChar(c)
  {
    if 'A' <= c <= 'F' then ((c as int) - ('A' as int) + ('a' as int)) as char else c
  }

  /** Printing an ObjectId and parsing the text gives the same ObjectId back. */
  lemma ObjectIdTextRoundTrip(o: ObjectId)
    requires WellFormed(o)
    ensures ParseObjectId(ObjectIdText(o)) == Some(o)
  {
    var s := ObjectIdText(o);
    assert HexNibbles(s) == o.nibbles;
  }

  /** Parsing then printing an ObjectId text gives the same text in lower case. */
  lemma ParsedObjectIdText(s: string)
    requires IsObjectIdText(s)
    ensures |ObjectIdText(ParseObjectId(s).value)| == |s|
    ensures forall k :: 0 <= k < |s| ==> ObjectIdText(ParseObjectId(s).value)[k] == LowerHex(s[k])
  {
  }

  /** Two texts denote the same ObjectId exactly when they agree up to letter case. */
  lemma ObjectIdCaseInsensitive(s: string, t: string)
    requires IsObjectIdText(s) && IsObjectIdText(t)
    ensures ParseObjectId(s) == ParseObjectId(t) <==> forall k :: 0 <= k < |s| ==> LowerHex(s[k]) == LowerHex(t[k])
  {
    if forall k :: 0 <= k < |s| ==> LowerHex(s[k]) == LowerHex(t[k]) {
      SameLowerSameNibbles(s, t);
    }
    if ParseObjectId(s) == ParseObjectId(t) {
      SameNibblesSameLower(s, t);
    }
  }

  lemma SameLowerSameNibbles(s: string, t: string)
    requires IsObjectIdText(s) && IsObjectIdText(t)
    requires forall k :: 0 <= k < |s| ==> LowerHex(s[k]) == LowerHex(t[k])
    ensures ParseObjectId(s) == ParseObjectId(t)
  {
    var a := HexNibbles(s);
    var b := HexNibbles(t);
    forall k | 0 <= k < |s| ensures a[k] == b[k] {
      assert HexValue(s[k]) == HexValue(LowerHex(s[k]));
      assert HexValue(t[k]) == HexValue(LowerHex(t[k]));
    }
    assert a == b;
  }

  lemma SameNibblesSameLower(s: string, t: string)
    requires IsObjectIdText(s) && IsObjectIdText(t)
    requires ParseObjectId(s) == ParseObjectId(t)
    ensures forall k :: 0 <= k < |s| ==> LowerHex(s[k]) == LowerHex(t[k])
  {
    var a := HexNibbles(s);
    var b := HexNibbles(t);
    assert a == b;
    forall k | 0 <= k < |s| ensures LowerHex(s[k]) == LowerHex(t[k]) {
      assert a[k] == b[k];
      assert LowerHex(s[k]) == HexChar(a[k]);
      assert LowerHex(t[k]) == HexChar(b[k]);
    }
  }

  /**
   * An ObjectId text is also an `int(...)` literal exactly when its 24
   * characters are all decimal digits; such a text is the only kind that
   * could be read as either kind of user id.
   */
  lemma ObjectIdTextAsInt(s: string)
    requires IsObjectIdText(s)
    ensures Text.ParseInt(s).Some? <==> Text.AllDigits(s)
  {
    assert !Text.IsSpace(s[0]) && !Text.IsSpace(s[|s| - 1]);
    Text.StripPadded([], s, []);
    assert [] + s + [] == s;
  }
}
