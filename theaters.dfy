/** The theatres page's map link (cilent/src/pages/Theaters.jsx,
    `getMapUrl`): a Google Maps search for the theatre's name, address and
    city. */
module Theaters {
  import opened Wrappers
  import opened Strings
  import opened Uri

  const MapsSearch := "https://www.google.com/maps/search/"
  const MapsQueryPrefix := "api=1&query="
  const MapsPrefix := MapsSearch + "?" + MapsQueryPrefix

  /** The text searched for. */
  function MapQuery(name: string, address: string, city: string): string {
    name + ", " + address + ", " + city
  }

  /** `getMapUrl(name, address, city)`. */
  function GetMapUrl(name: string, address: string, city: string): (url: string)
    ensures StartsWith(url, MapsPrefix)
    ensures WellEncoded(url[|MapsPrefix|..])
    ensures DecodeURIComponent(url[|MapsPrefix|..]) == Some(MapQuery(name, address, city))
  {
    var encoded := EncodeURIComponent(MapQuery(name, address, city));
    EncodedIsWellEncoded(MapQuery(name, address, city));
    DecodeEncoded(MapQuery(name, address, city));
    assert (MapsPrefix + encoded)[|MapsPrefix|..] == encoded;
    MapsPrefix + encoded
  }

  lemma NotInConcat(c: char, a: string, b: string)
    requires c !in a && c !in b
    ensures c !in a + b
  {
  }

  lemma SearchHasNoDelimiters()
    ensures '?' !in MapsSearch && '#' !in MapsSearch
  {
  }

  lemma QueryPrefixParts()
    ensures MapsQueryPrefix == "api=1" + ['&'] + "query="
    ensures '?' !in MapsQueryPrefix && '#' !in MapsQueryPrefix && '&' !in "api=1" && '&' !in "query="
  {
  }

  lemma PrefixParts()
    ensures MapsPrefix == MapsSearch + ['?'] + MapsQueryPrefix
    ensures '?' !in MapsSearch && '?' !in MapsQueryPrefix && '&' !in "query=" && '#' !in MapsPrefix
  {
    SearchHasNoDelimiters();
    QueryPrefixParts();
    NotInConcat('#', MapsSearch, "?");
    NotInConcat('#', MapsSearch + "?", MapsQueryPrefix);
  }

  /** A string with one separator splits into the two sides. */
  lemma SplitInTwo(a: string, b: string, sep: char)
    requires sep !in a && sep !in b
    ensures Split(a + [sep] + b, sep) == [a, b]
  {
    SplitAtFirst(a, b, sep);
    SplitNoSeparator(b, sep);
  }

  lemma SplitAfterPrefix(a: string, b: string, c: string, sep: char)
    requires sep !in a && sep !in b + c
    ensures Split(a + [sep] + b + c, sep) == [a, b + c]
  {
    assert a + [sep] + b + c == a + [sep] + (b + c);
    SplitInTwo(a, b + c, sep);
  }

  lemma SplitAtQuestionMark(encoded: string)
    requires '?' !in encoded
    ensures Split(MapsPrefix + encoded, '?') == [MapsSearch, MapsQueryPrefix + encoded]
  {
    SearchHasNoDelimiters();
    QueryPrefixParts();
    NotInConcat('?', MapsQueryPrefix, encoded);
    SplitAfterPrefix(MapsSearch, MapsQueryPrefix, encoded, '?');
  }

  lemma SplitAtAmpersand(encoded: string)
    requires '&' !in encoded
    ensures Split(MapsQueryPrefix + encoded, '&') == ["api=1", "query=" + encoded]
  {
    QueryPrefixParts();
    NotInConcat('&', "query=", encoded);
    SplitAfterPrefix("api=1", "query=", encoded, '&');
  }

  lemma SplitAtEquals(encoded: string)
    requires '=' !in encoded
    ensures Split("query=" + encoded, '=') == ["query", encoded]
  {
    assert "query=" + encoded == "query" + ['='] + encoded;
    SplitAtFirst("query", encoded, '=');
    SplitNoSeparator(encoded, '=');
  }

  /** Whatever the name, address and city hold, the link has one `?`, and
      its query has exactly two parameters, `api=1` and `query=` followed
      by the encoded search text, which holds no `=` and no `#`. */
  lemma MapUrlHasTwoParameters(name: string, address: string, city: string)
    ensures var encoded := EncodeURIComponent(MapQuery(name, address, city));
            && Split(GetMapUrl(name, address, city), '?') == [MapsSearch, MapsQueryPrefix + encoded]
            && Split(MapsQueryPrefix + encoded, '&') == ["api=1", "query=" + encoded]
            && Split("query=" + encoded, '=') == ["query", encoded]
            && '#' !in GetMapUrl(name, address, city)
  {
    var encoded := EncodeURIComponent(MapQuery(name, address, city));
    EncodedIsWellEncoded(MapQuery(name, address, city));
    WellEncodedHasNoDelimiters(encoded);
    SplitAtQuestionMark(encoded);
    SplitAtAmpersand(encoded);
    SplitAtEquals(encoded);
    PrefixParts();
    NotInConcat('#', MapsPrefix, encoded);
  }

  /** A plain name, address and city (letters and digits only) reach the
      link with each ", " written as "%2C%20". */
  lemma PlainPartsExample(name: string, address: string, city: string)
    requires forall i :: 0 <= i < |name| ==> Unreserved(name[i])
    requires forall i :: 0 <= i < |address| ==> Unreserved(address[i])
    requires forall i :: 0 <= i < |city| ==> Unreserved(city[i])
    ensures GetMapUrl(name, address, city) == MapsPrefix + (name + "%2C%20" + address + "%2C%20" + city)
  {
    EncodeParts(name, ", ", address, city);
    CommaSpace();
  }

  /** Unreserved parts pass through the encoder; only the glue between them
      is escaped. */
  lemma EncodeParts(x: string, glue: string, y: string, z: string)
    requires forall i :: 0 <= i < |x| ==> Unreserved(x[i])
    requires forall i :: 0 <= i < |y| ==> Unreserved(y[i])
    requires forall i :: 0 <= i < |z| ==> Unreserved(z[i])
    ensures EncodeURIComponent(x + glue + y + glue + z)
            == x + EncodeURIComponent(glue) + y + EncodeURIComponent(glue) + z
  {
    EncodeConcat(x + glue + y + glue, z);
    EncodeConcat(x + glue + y, glue);
    EncodeConcat(x + glue, y);
    EncodeConcat(x, glue);
    UnreservedUnchanged(x);
    UnreservedUnchanged(y);
    UnreservedUnchanged(z);
  }

  lemma CommaSpace()
    ensures EncodeURIComponent(", ") == "%2C%20"
  {
    assert EscapeAll([0x2C]) == Escape(0x2C) + EscapeAll([]);
    assert EscapeAll([0x20]) == Escape(0x20) + EscapeAll([]);
    assert ", "[1..] == " ";
    assert " "[1..] == "";
  }

  /** The encoder works character by character. */
  lemma {:induction false} EncodeConcat(a: string, b: string)
    ensures EncodeURIComponent(a + b) == EncodeURIComponent(a) + EncodeURIComponent(b)
  {
    if |a| == 0 {
      assert a + b == b;
    } else {
      assert (a + b)[0] == a[0];
      assert (a + b)[1..] == a[1..] + b;
      EncodeConcat(a[1..], b);
    }
  }
}
