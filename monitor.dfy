/**
 * One run of `buscar_terremotos` after the feed has been decoded: filter
 * the events, and only when something was kept, pick the next free export
 * number and build the document written under it.
 */
module Monitor {
  import opened Wrappers
  import opened Quakes
  import opened Versioning
  import opened Kml

  /** The file an export writes: its number, its path and the pieces joined into its text. */
  datatype ExportFile = ExportFile(suffix: nat, path: string, lines: seq<string>)

  /** What a run produces: the number of alerts and the export, if any. */
  datatype Report = Report(alerts: nat, file: Option<ExportFile>)

  /**
   * main.py:80-116. `dir` is the set of names already in the output folder;
   * `r` supplies the date and number renderings.
   */
  method Scan(events: seq<Event>, threshold: real, dir: set<string>, r: Render) returns (report: Report)
    ensures report.alerts == |Kept(events, threshold)|
    ensures report.file.Some? <==> exists e :: e in events && Qualifies(e, threshold)
    ensures report.file.Some? ==>
      var x := report.file.value;
      && IsFirstFree(dir, x.suffix)
      && x.path == PathOf(x.suffix)
      && x.lines == Document(Kept(events, threshold), x.suffix, r)
  {
    var kept, count := FilterByMagnitude(events, threshold);
    KeptEmptyIff(events, threshold);
    if count == 0 {
      report := Report(count, None);
    } else {
      var n := NextSuffix(dir);
      var lines := BuildDocument(kept, n, r);
      report := Report(count, Some(ExportFile(n, PathOf(n), lines)));
    }
  }

  /** The scenario's event: magnitude 4.5, at longitude 10.0, latitude 20.0, depth 5.0. */
  function ScenarioEvent(): Event {
    Event(4.5, "Test Ridge", 0, "http://x", 10.0, 20.0, 5.0)
  }

  lemma ScenarioKept()
    ensures Kept([ScenarioEvent()], DefaultThreshold) == [ScenarioEvent()]
  {
    var e := ScenarioEvent();
    assert [e][..0] == [];
    assert Kept([e], DefaultThreshold) == Kept([], DefaultThreshold) + [e];
  }

  lemma ScenarioCoordinates(r: Render)
    requires r.number(10.0) == "10.0" && r.number(20.0) == "20.0"
    ensures Coordinates(ScenarioEvent(), r) == "<coordinates>10.0,20.0</coordinates>"
  {
    calc {
      Coordinates(ScenarioEvent(), r);
    ==
      CoordinatesOpen + r.number(10.0) + "," + r.number(20.0) + CoordinatesClose;
    ==
      CoordinatesOpen + "10.0" + "," + "20.0" + CoordinatesClose;
    ==
      "<coordinates>10.0,20.0</coordinates>";
    }
  }

  /**
   * A single event exactly at the threshold is exported as one Placemark whose
   * point reads "10.0,20.0", longitude first.
   */
  lemma BoundaryScenario(r: Render)
    requires r.number(10.0) == "10.0" && r.number(20.0) == "20.0"
    ensures Kept([ScenarioEvent()], DefaultThreshold) == [ScenarioEvent()]
    ensures Document([ScenarioEvent()], 1, r)[4] == Placemark(ScenarioEvent(), r)
    ensures Coordinates(ScenarioEvent(), r) == "<coordinates>10.0,20.0</coordinates>"
  {
    ScenarioKept();
    DocumentShape([ScenarioEvent()], 1, r);
    ScenarioCoordinates(r);
  }
}
