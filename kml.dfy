/**
 * The KML 2.2 document that `gerar_kml_versionado` writes: a list of text
 * pieces (an XML declaration, the `kml` and `Document` openings, a title
 * carrying the export's number, one Placemark per event, the closings),
 * joined without separators into the file's contents.
 */
module Kml {
  import opened Wrappers
  import opened Decimal
  import opened Quakes
  import Versioning

  /**
   * Renderings the script takes from Python and its runtime: `date` is
   * `formatarData` (local time of an epoch-milliseconds timestamp) and
   * `number` is Python's `str` of a float.
   */
  datatype Render = Render(date: int -> string, number: real -> string)

  const XmlDeclaration: string := "<?xml version=\"1.0\" encoding=\"UTF-8\"?>"
  const KmlOpen: string := "<kml xmlns=\"http://www.opengis.net/kml/2.2\">"
  const DocumentOpen: string := "<Document>"
  const TitleOpen: string := "<name>Monitoramento Sísmico #"
  const TitleClose: string := "</name>"
  const Closing: string := "</Document>\n</kml>"
  const CoordinatesOpen: string := "<coordinates>"
  const CoordinatesClose: string := "</coordinates>"

  /** The document's title: the export number in plain, unpadded decimal. */
  function Title(n: nat): string {
    TitleOpen + Show(n) + TitleClose
  }

  /** The four pieces before the first Placemark. */
  function Head(n: nat): seq<string> {
    [XmlDeclaration, KmlOpen, DocumentOpen, Title(n)]
  }

  /** The point of an event: longitude first, then latitude; depth is not written. */
  function Coordinates(e: Event, r: Render): string {
    CoordinatesOpen + r.number(e.lon) + "," + r.number(e.lat) + CoordinatesClose
  }

  /** One Placemark, with the indentation of the script's triple-quoted template. */
  function Placemark(e: Event, r: Render): string {
    "\n        <Placemark>\n            <name>Mag " + r.number(e.mag) + " - " + e.place
    + "</name>\n            <description>Data: " + r.date(e.time) + "\nLink: " + e.url
    + "</description>\n            <Point>\n                " + Coordinates(e, r)
    + "\n            </Point>\n        </Placemark>\n        "
  }

  /** The Placemarks of `events`, in their order. */
  function Placemarks(events: seq<Event>, r: Render): seq<string>
    decreases |events|
  {
    if events == [] then []
    else Placemarks(events[..|events| - 1], r) + [Placemark(events[|events| - 1], r)]
  }

  /** The list `kml_content` once complete. */
  function Document(events: seq<Event>, n: nat, r: Render): seq<string> {
    Head(n) + Placemarks(events, r) + [Closing]
  }

  /** `"".join(parts)`: the text written to the file. */
  function Join(parts: seq<string>): string
    decreases |parts|
  {
    if parts == [] then "" else Join(parts[..|parts| - 1]) + parts[|parts| - 1]
  }

  /**
   * The list construction of main.py:35-58: the head, then one Placemark
   * appended per event, then the closing tags.
   */
  method BuildDocument(events: seq<Event>, n: nat, r: Render) returns (lines: seq<string>)
    ensures lines == Document(events, n, r)
  {
    lines := [XmlDeclaration, KmlOpen, DocumentOpen, Title(n)];
    for i := 0 to |events|
      invariant lines == Head(n) + Placemarks(events[..i], r)
    {
      assert events[..i + 1][..i] == events[..i];
      lines := lines + [Placemark(events[i], r)];
    }
    assert events[..|events|] == events;
    lines := lines + [Closing];
  }

  /** Exactly one Placemark per event, the i-th for the i-th event. */
  lemma {:induction false} PlacemarksInOrder(events: seq<Event>, r: Render)
    ensures |Placemarks(events, r)| == |events|
    ensures forall i :: 0 <= i < |events| ==> Placemarks(events, r)[i] == Placemark(events[i], r)
    decreases |events|
  {
    if events != [] {
      PlacemarksInOrder(events[..|events| - 1], r);
    }
  }

  /**
   * The document is the four head pieces with the title for `n`, then the
   * Placemark of each event in input order, then the closing tags.
   */
  lemma DocumentShape(events: seq<Event>, n: nat, r: Render)
    ensures |Document(events, n, r)| == |events| + 5
    ensures Document(events, n, r)[..4] == Head(n)
    ensures Document(events, n, r)[3] == Title(n)
    ensures forall i :: 0 <= i < |events| ==> Document(events, n, r)[4 + i] == Placemark(events[i], r)
    ensures Document(events, n, r)[|events| + 4] == Closing
  {
    PlacemarksInOrder(events, r);
  }

  /** Reads the number back out of a title. */
  function NumberInTitle(t: string): Option<nat>
  {
    if |t| > |TitleOpen| + |TitleClose|
       && t[..|TitleOpen|] == TitleOpen
       && t[|t| - |TitleClose|..] == TitleClose
       && IsDigits(t[|TitleOpen|..|t| - |TitleClose|])
    then Some(Parse(t[|TitleOpen|..|t| - |TitleClose|]))
    else None
  }

  /**
   * The title carries the same number as the file name it is written to,
   * once unpadded and once zero-padded.
   */
  lemma TitleAgreesWithFileName(n: nat)
    ensures NumberInTitle(Title(n)) == Some(n)
    ensures Versioning.NumberInFileName(Versioning.FileName(n)) == Some(n)
  {
    var t := Title(n);
    assert t[..|TitleOpen|] == TitleOpen;
    assert t[|t| - |TitleClose|..] == TitleClose;
    assert t[|TitleOpen|..|t| - |TitleClose|] == Show(n);
    ParseShow(n);
    Versioning.FileNameRoundTrip(n);
  }

  /** The position of the first occurrence of `c` in `s`. */
  function FirstIndexOf(s: string, c: char): (k: Option<nat>)
    ensures k.Some? ==> k.value < |s| && s[k.value] == c && c !in s[..k.value]
    ensures k.None? ==> c !in s
  {
    if s == [] then None
    else if s[0] == c then Some(0)
    else match FirstIndexOf(s[1..], c)
      case None => None
      case Some(k) => Some(k + 1)
  }

  lemma {:induction false} FirstIndexOfSeparator(a: string, b: string, c: char)
    requires c !in a
    ensures FirstIndexOf(a + [c] + b, c) == Some(|a|)
    decreases |a|
  {
    if a != [] {
      assert (a + [c] + b)[1..] == a[1..] + [c] + b;
      FirstIndexOfSeparator(a[1..], b, c);
    }
  }

  /** Splits a `<coordinates>` element at its first comma: (first, second). */
  function ReadCoordinates(elem: string): Option<(string, string)> {
    if |elem| >= |CoordinatesOpen| + |CoordinatesClose|
       && elem[..|CoordinatesOpen|] == CoordinatesOpen
       && elem[|elem| - |CoordinatesClose|..] == CoordinatesClose
    then
      var inner := elem[|CoordinatesOpen|..|elem| - |CoordinatesClose|];
      match FirstIndexOf(inner, ',')
      case None => None
      case Some(k) => Some((inner[..k], inner[k + 1..]))
    else None
  }

  /**
   * Reading a written `<coordinates>` element gives the longitude first and
   * the latitude second, whenever the longitude's text holds no comma.
   */
  lemma CoordinatesLongitudeFirst(e: Event, r: Render)
    requires ',' !in r.number(e.lon)
    ensures ReadCoordinates(Coordinates(e, r)) == Some((r.number(e.lon), r.number(e.lat)))
  {
    var lon, lat := r.number(e.lon), r.number(e.lat);
    var elem := Coordinates(e, r);
    var inner := lon + "," + lat;
    assert elem[..|CoordinatesOpen|] == CoordinatesOpen;
    assert elem[|elem| - |CoordinatesClose|..] == CoordinatesClose;
    assert elem[|CoordinatesOpen|..|elem| - |CoordinatesClose|] == inner;
    FirstIndexOfSeparator(lon, lat, ',');
    assert inner[..|lon|] == lon;
    assert inner[|lon| + 1..] == lat;
  }

  /** Depth never reaches the document. */
  lemma PlacemarkIgnoresDepth(e: Event, d: real, r: Render)
    ensures Placemark(e.(depth := d), r) == Placemark(e, r)
  {
  }

  lemma {:induction false} JoinAppend(a: seq<string>, b: seq<string>)
    ensures Join(a + b) == Join(a) + Join(b)
    decreases |b|
  {
    if b == [] {
      assert a + b == a;
    } else {
      assert (a + b)[..|a + b| - 1] == a + b[..|b| - 1];
      assert (a + b)[|a + b| - 1] == b[|b| - 1];
      JoinAppend(a, b[..|b| - 1]);
    }
  }

  /** The file text starts with the XML declaration and ends with the closing tags. */
  lemma DocumentText(events: seq<Event>, n: nat, r: Render)
    ensures |Join(Document(events, n, r))| >= |XmlDeclaration| + |Closing|
    ensures Join(Document(events, n, r))[..|XmlDeclaration|] == XmlDeclaration
    ensures Join(Document(events, n, r))[|Join(Document(events, n, r))| - |Closing|..] == Closing
  {
    var doc := Document(events, n, r);
    var rest := doc[1..];
    assert doc[..|doc| - 1] == Head(n) + Placemarks(events, r);
    assert doc == [XmlDeclaration] + rest;
    JoinAppend([XmlDeclaration], rest);
    assert Join([XmlDeclaration]) == XmlDeclaration by {
      assert [XmlDeclaration][..0] == [];
    }
  }
}
