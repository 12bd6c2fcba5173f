# earthquake-monitor, modelled in Dafny

The script `main.py` reads the USGS "all earthquakes, past day" GeoJSON feed.
It keeps every event whose magnitude is at or above 4.5 and prints an alert for each one.
When at least one event was kept, it writes them as Placemarks into a KML 2.2 file.
The file goes into the folder `pins/`, under `terremotos_NNN.kml`.
NNN is the least positive number whose file is not there yet, zero-padded to three digits.

This project models the three sequential pieces of that run and proves what they promise:

- `quakes.dfy`, module `Quakes`: the event record and the magnitude filter. `FilterByMagnitude` is the loop with the counter `contador` and the list `tremores_para_kml`. `Kept` is its specification, and `QualifyingIndices` is an independent description of the positions it selects.
- `versioning.dfy`, module `Versioning`: the file name for a number and the `while True` scan for the first free number. The folder is modelled as the finite set of names it holds. The scan is `NextSuffix`, specified by `IsFirstFree`. It terminates because distinct numbers give distinct names (`FileNameInjective`, proved through the reader `NumberInFileName`), so at most `|dir| + 1` names are tried.
- `kml.dfy`, module `Kml`: the list `kml_content`, built by `BuildDocument` and specified by `Document`. The readers `NumberInTitle` and `ReadCoordinates` recover the title's number and the coordinate pair from the written text.
- `decimal.dfy`, module `Decimal`: Python's `{n}` and `{n:03d}` renderings of a number (`Show`, `Pad3`) and the digit reader `Parse` that inverts them.
- `monitor.dfy`, module `Monitor`: one run after the feed has been decoded (`Scan`). It filters the events, and only when something was kept does it choose the number and build the document.
- `wrappers.dfy`, module `Wrappers`: the `Option` type returned by the readers.

Python's rendering of a float (`str`) and `formatarData` are not modelled. They enter as the two functions of a `Kml.Render` value that every caller passes in.
Magnitudes and coordinates are `real`. The feed's position is `[longitude, latitude, depth]` (section 3.1.1 of RFC 7946), and the KML `<coordinates>` element is written longitude first. The console alert prints latitude first (main.py:106), but the console is not modelled.

Two behaviours of the code are easy to misread, and the model follows the code in both:
- The scan fills gaps. With `terremotos_001.kml` deleted and `terremotos_002.kml` present, the next export reuses 1 (`GapIsBackfilled`).
- From 1000 on, the padded number has more than three digits (`Pad3`).

## Model

| member | source | states |
|---|---|---|
| Quakes.Qualifies | main.py:90 | an event passes the filter when its magnitude is at or above the threshold, boundary included |
| Quakes.Kept | main.py:83-98 | the kept events are at most as many as the input and all of them are input events that reach the threshold |
| Quakes.QualifyingIndices | main.py:83-90 | the selected positions ascend strictly, lie in range, and position i is selected iff the event there has magnitude >= threshold |
| Quakes.KeptIsOrderedSelection | main.py:83-98 | the kept list is exactly the events at the qualifying positions, in their original relative order |
| Quakes.ThresholdIsInclusive | main.py:90 | an event whose magnitude equals the threshold is kept |
| Quakes.KeptEmptyIff | main.py:111-116 | nothing is kept iff no event reaches the threshold |
| Quakes.FilterByMagnitude | main.py:80-98 | the loop's list is the kept list and its counter always equals that list's length |
| Decimal.Show | main.py:39 | the plain rendering is a non-empty digit string, with no leading zero for positive numbers and none whenever it is longer than one digit |
| Decimal.ParseShow | main.py:39 | reading the plain rendering back gives the number |
| Decimal.Pad3 | main.py:28 | the padded rendering is digits only, at least three long, exactly three iff n < 1000, has no leading zero when longer than three, and reads back as n |
| Versioning.FileName | main.py:28 | the name `terremotos_` + the number padded to three digits + `.kml` |
| Versioning.PathOf | main.py:28 | the folder `pins`, a `/`, then the file name |
| Versioning.IsFirstFree | main.py:26-31 | n is at least 1, its file is absent, and the files of every number from 1 to n-1 are present |
| Versioning.FileNameRoundTrip | main.py:28 | the number read back from an export's file name is the number it was made from |
| Versioning.FileNameInjective | main.py:28-29 | two numbers with the same file name are equal, so a free name is never a prior file |
| Versioning.FullPrefixBound | main.py:26-31 | a folder holding the files of 1 .. n-1 holds at least n-1 names, which bounds the scan |
| Versioning.NextSuffix | main.py:26-31 | the scan returns n >= 1 whose file is absent while the files of all of 1 .. n-1 are present, and n <= size of the folder + 1 |
| Versioning.EmptyFolderGetsOne | main.py:26-31 | an empty folder gets number 1 |
| Versioning.AfterTwoGetsThree | main.py:26-31 | a folder holding the files for 1 and 2 gets number 3 |
| Versioning.GapIsBackfilled | main.py:26-31 | with file 1 missing and file 2 present, the scan picks 1 again |
| Kml.Title | main.py:39 | `<name>Monitoramento Sísmico #` + the number unpadded + `</name>` |
| Kml.Head | main.py:35-40 | the XML declaration, the `kml` opening with the KML 2.2 namespace, `<Document>`, then the title |
| Kml.Coordinates | main.py:52 | `<coordinates>` + longitude text + `,` + latitude text + `</coordinates>`; depth is not written |
| Kml.Placemark | main.py:47-55 | the triple-quoted template with its newlines and indentation: name `Mag <magnitude> - <place>`, description `Data: <date>` newline `Link: <url>`, and the point's coordinates |
| Kml.Placemarks | main.py:42-56 | the Placemark of each event, in input order |
| Kml.Document | main.py:35-58 | the head, then the Placemarks, then `</Document>` newline `</kml>` |
| Kml.Join | main.py:62 | the pieces concatenated with no separator, as `"".join` does |
| Kml.BuildDocument | main.py:35-58 | the list built is the head, one Placemark per event, then the closing tags |
| Kml.PlacemarksInOrder | main.py:42-56 | there is one Placemark per event and the i-th is the i-th event's |
| Kml.DocumentShape | main.py:35-58 | the document has five pieces more than there are events: the four head pieces (XML declaration, `kml` opening, `<Document>`, title for n) first, then each event's Placemark in order, closing tags last |
| Kml.TitleAgreesWithFileName | main.py:28-39 | the title reads back as n unpadded and the file name reads back as the same n padded |
| Kml.CoordinatesLongitudeFirst | main.py:46-52 | reading a written coordinates element gives longitude first and latitude second |
| Kml.PlacemarkIgnoresDepth | main.py:44-55 | changing an event's depth does not change its Placemark |
| Kml.DocumentText | main.py:58-62 | the joined file text begins with the XML declaration and ends with the closing tags |
| Monitor.Scan | main.py:80-116 | alerts equal the number kept; a file is produced iff some event reaches the threshold; its number is the first free one, its path is pins/ + that name, its pieces are the document of the kept events |
| Monitor.BoundaryScenario | main.py:90-98 | one event at magnitude 4.5 with threshold 4.5 is kept and exported with coordinates "10.0,20.0" |

## Left out

- The HTTP request, the status-code check and JSON decoding (main.py:72-78, 118-119): network I/O and a foreign library. `Scan` starts from the decoded list of events.
- A feed event whose magnitude is null: in Python the comparison at main.py:90 raises, and the catch-all handler ends the run. The model gives every event a magnitude.
- Quakes.Event: every event has a time, a geometry and a three-element position. In the source, a kept event with a null `time` (main.py:93, 14), a null `geometry` (main.py:94, allowed by section 3.2 of RFC 7946) or a position without altitude (main.py:107; altitude is optional in section 3.1.1 of RFC 7946) raises, and the catch-all handler ends the run before any file is written. For such inputs `Monitor.Scan` would promise a file that the source never writes.
- Kml.Render: a JSON integer and a float of the same value render alike (`5` and `5.0` in the source at main.py:49, 52), because both become the same `real`.
- The catch-all exception handler (main.py:121-122) and the closing `input` prompt (main.py:126): control glue around I/O.
- All console output (main.py:68-69, 77, 101-114, 119), including the alert lines and the two summary messages.
- Creating `pins/` and writing the file (main.py:21-23, 61-64). The model returns the path and the pieces whose join (`Kml.Join`) is the file's text; the folder is the set of names passed to `Scan`.
- The body of `formatarData` (main.py:12-15) and Python's float-to-text rendering: both are functions supplied in `Kml.Render`.
- Float semantics of magnitudes and coordinates: they are `real`.
- Windows path separators: `PathOf` uses "/".
- Two runs racing for the same number: the model is sequential.
