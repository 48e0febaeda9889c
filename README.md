# semantic-web-calendar: event record and ICS line scanner

This project models, in Dafny, the two pieces of the semantic-web-calendar tool
(an ICS-to-RDF converter in its early stage) that have behaviour:

- **`CalendarEvent`**: a mutable record of the ten VEVENT properties of
  section 3.8 of RFC 5545 (DTSTAMP, DTSTART, DTEND, SUMMARY, LOCATION,
  DESCRIPTION, UID, CREATED, LAST-MODIFIED, SEQUENCE). It has two
  constructors and ten getter/setter pairs. It is modelled as the class
  `CalendarEvents.CalendarEvent`, with one field per Java field. Each field
  has type `Option<string>`, where `None` is Java's `null`. The ghost function
  `Fields()` gives the object's state as an `EventFields` value. `Get` and
  `Set` describe what the getters read and the setters write. Lemmas show that
  a setter writes exactly its own field, that setting a field twice is the
  same as setting it once, and that setters on different fields commute.
- **The line scanner in `Main.main`**: a `while` loop over the lines of the
  calendar file. It splits each line on every colon with Java's
  `String.split` and records `startLine = currentLine + 1` when the first two
  pieces are `BEGIN` and `VEVENT`. The branch that should build an event is
  empty, so the scan only produces the two counters, unless a
  `columns[0]`/`columns[1]` access fails with an array-index exception.
  - `JavaStrings.Split` models `String.split` for a one-character pattern
    that is not a regular-expression metacharacter; the scanner uses `':'`.
    It cuts the line at every colon and drops trailing empty pieces. A string
    with no separator comes back whole, even when it is empty. Java reads the
    pattern as a regular expression, so `Split` requires `PlainSeparator`,
    which excludes `.$|()[{^?*+\`.
  - `IcsScan.TestLine` models the per-line condition and its index failures.
  - `IcsScan.Scan` is the loop. It returns `Result<Counters, ScanError>` and
    is proved against the declarative `ScanSpec`: `currentLine` is the number
    of lines plus one, and `startLine` is 0 when no line opens an event,
    otherwise the 1-based number of the last line that opens one, plus one.
    On failure the result names the first line whose test fails.

The calendar file is given to the scan as a sequence of lines. Files:
`wrappers.dfy` (Option, Result), `calendar_event.dfy`, `java_split.dfy`,
`ics_scan.dfy`.

The scanner is an early stage of the tool. It splits each line on every
colon, looks only at the first two pieces, ignores `END:VEVENT`, and builds
no event from the lines that follow an event start.

## Model

| member | source | states |
|---|---|---|
| CalendarEvents.CalendarEvent.Empty | src/main/java/org/semanticwebproject/lib/CalendarEvent.java:15 | the no-argument constructor leaves all ten fields null |
| CalendarEvents.CalendarEvent.constructor | src/main/java/org/semanticwebproject/lib/CalendarEvent.java:16-28 | the ten-argument constructor stores each argument in its own field, in the declared parameter order |
| CalendarEvents.CalendarEvent.GetStampDate | src/main/java/org/semanticwebproject/lib/CalendarEvent.java:30-32 | returns the current DTSTAMP field and changes nothing |
| CalendarEvents.CalendarEvent.SetStampDate | src/main/java/org/semanticwebproject/lib/CalendarEvent.java:33-35 | the new state is the old state with only the DTSTAMP field replaced |
| CalendarEvents.CalendarEvent.GetStartDate | src/main/java/org/semanticwebproject/lib/CalendarEvent.java:37-39 | returns the current DTSTART field and changes nothing |
| CalendarEvents.CalendarEvent.SetStartDate | src/main/java/org/semanticwebproject/lib/CalendarEvent.java:40-42 | the new state is the old state with only the DTSTART field replaced |
| CalendarEvents.CalendarEvent.GetEndDate | src/main/java/org/semanticwebproject/lib/CalendarEvent.java:44-46 | returns the current DTEND field and changes nothing |
| CalendarEvents.CalendarEvent.SetEndDate | src/main/java/org/semanticwebproject/lib/CalendarEvent.java:47-49 | the new state is the old state with only the DTEND field replaced |
| CalendarEvents.CalendarEvent.GetSummary | src/main/java/org/semanticwebproject/lib/CalendarEvent.java:50-52 | returns the current SUMMARY field and changes nothing |
| CalendarEvents.CalendarEvent.SetSummary | src/main/java/org/semanticwebproject/lib/CalendarEvent.java:53-55 | the new state is the old state with only the SUMMARY field replaced |
| CalendarEvents.CalendarEvent.GetLocation | src/main/java/org/semanticwebproject/lib/CalendarEvent.java:56-58 | returns the current LOCATION field and changes nothing |
| CalendarEvents.CalendarEvent.SetLocation | src/main/java/org/semanticwebproject/lib/CalendarEvent.java:59-61 | the new state is the old state with only the LOCATION field replaced |
| CalendarEvents.CalendarEvent.GetDescription | src/main/java/org/semanticwebproject/lib/CalendarEvent.java:62-64 | returns the current DESCRIPTION field and changes nothing |
| CalendarEvents.CalendarEvent.SetDescription | src/main/java/org/semanticwebproject/lib/CalendarEvent.java:65-67 | the new state is the old state with only the DESCRIPTION field replaced |
| CalendarEvents.CalendarEvent.GetUid | src/main/java/org/semanticwebproject/lib/CalendarEvent.java:68-70 | returns the current UID field and changes nothing |
| CalendarEvents.CalendarEvent.SetUid | src/main/java/org/semanticwebproject/lib/CalendarEvent.java:71-73 | the new state is the old state with only the UID field replaced |
| CalendarEvents.CalendarEvent.GetCreatedAt | src/main/java/org/semanticwebproject/lib/CalendarEvent.java:74-76 | returns the current CREATED field and changes nothing |
| CalendarEvents.CalendarEvent.SetCreatedAt | src/main/java/org/semanticwebproject/lib/CalendarEvent.java:77-79 | the new state is the old state with only the CREATED field replaced |
| CalendarEvents.CalendarEvent.GetLastModified | src/main/java/org/semanticwebproject/lib/CalendarEvent.java:80-82 | returns the current LAST-MODIFIED field and changes nothing |
| CalendarEvents.CalendarEvent.SetLastModified | src/main/java/org/semanticwebproject/lib/CalendarEvent.java:83-85 | the new state is the old state with only the LAST-MODIFIED field replaced |
| CalendarEvents.CalendarEvent.GetSequence | src/main/java/org/semanticwebproject/lib/CalendarEvent.java:86-88 | returns the current SEQUENCE field and changes nothing |
| CalendarEvents.CalendarEvent.SetSequence | src/main/java/org/semanticwebproject/lib/CalendarEvent.java:89-91 | the new state is the old state with only the SEQUENCE field replaced |
| CalendarEvents.SetLocationAndSummary | src/main/java/org/semanticwebproject/lib/CalendarEvent.java:53-61 | on one object, `setLocation(v)` then `setSummary(w)` leaves `getLocation()` returning `v`, and the object equals the result of the two setters in the other order |
| CalendarEvents.GetAfterSet | src/main/java/org/semanticwebproject/lib/CalendarEvent.java:30-91 | after `setX(v)`, `getX()` returns `v`, and every other getter returns what it returned before |
| CalendarEvents.Extensionality | src/main/java/org/semanticwebproject/lib/CalendarEvent.java:4-13 | the ten fields are the whole state: two states on which every getter agrees are equal |
| CalendarEvents.SetIdempotent | src/main/java/org/semanticwebproject/lib/CalendarEvent.java:33-91 | calling a setter twice with the same value leaves the object as one call does |
| CalendarEvents.SetCommutes | src/main/java/org/semanticwebproject/lib/CalendarEvent.java:33-91 | setters of two different fields give the same state in either order |
| JavaStrings.DropTrailingEmpty | src/main/java/org/semanticwebproject/Main.java:33 | the result is a prefix of the pieces, every piece dropped is empty, and the result does not end in an empty piece |
| JavaStrings.Split | src/main/java/org/semanticwebproject/Main.java:33 | `line.split(":")` (the pattern must be a plain character, not a regex metacharacter): a prefix of the colon-separated pieces, with only empty pieces dropped and none left at the end; the empty line gives one empty piece; no pieces exactly when the line is a non-empty run of colons |
| JavaStrings.SplitKeeps | src/main/java/org/semanticwebproject/Main.java:33 | `split` keeps every piece up to a non-empty one, unchanged and in place |
| JavaStrings.AllEmptyPieces | src/main/java/org/semanticwebproject/Main.java:33 | every piece between colons is empty exactly when the line is nothing but colons |
| JavaStrings.JoinPieces | src/main/java/org/semanticwebproject/Main.java:33 | the pieces, joined with colons, give back the line, and no piece contains a colon |
| JavaStrings.PiecesJoin | src/main/java/org/semanticwebproject/Main.java:33 | cutting colon-free pieces joined with colons gives the same pieces back |
| IcsScan.TestLine | src/main/java/org/semanticwebproject/Main.java:33-35 | the condition fails at `columns[0]` exactly for a non-empty run of colons, and at `columns[1]` exactly for `BEGIN` followed by colons only; these are its only failures; it holds exactly for a line that starts with `BEGIN:VEVENT` followed by a colon or the end of the line |
| IcsScan.SplitShapes | src/main/java/org/semanticwebproject/Main.java:33-35 | a line splits into the single piece `BEGIN` exactly when it is `BEGIN` and colons; its first two pieces are `BEGIN`, `VEVENT` exactly when it starts with `BEGIN:VEVENT` followed by a colon or the end of the line |
| IcsScan.ExtraPieceOpensEvent | src/main/java/org/semanticwebproject/Main.java:33-35 | `BEGIN:VEVENT:x` counts as an event start, because only pieces 0 and 1 are compared |
| IcsScan.BeginAloneFails | src/main/java/org/semanticwebproject/Main.java:33-35 | `BEGIN` and `BEGIN:` fail at `columns[1]` on an array of length 1 |
| IcsScan.EmptyAndColonLines | src/main/java/org/semanticwebproject/Main.java:33-35 | the empty line passes (one empty piece); `::` fails at `columns[0]` (no pieces) |
| IcsScan.ScanSpecUnique | src/main/java/org/semanticwebproject/Main.java:29-44 | the declarative description of the scan's outcome admits at most one outcome per input |
| IcsScan.CountersStep | src/main/java/org/semanticwebproject/Main.java:35-43 | one more passing line advances `currentLine`, and moves `startLine` to the line after it when it opens an event; a later event start overwrites an earlier one |
| IcsScan.FailureStep | src/main/java/org/semanticwebproject/Main.java:33-35 | a line that fails after passing lines ends the scan with that line's number and fault |
| IcsScan.CountersOrdered | src/main/java/org/semanticwebproject/Main.java:30-43 | the counters keep `0 <= startLine <= currentLine` |
| IcsScan.Scan | src/main/java/org/semanticwebproject/Main.java:29-44 | the loop meets `ScanSpec`: it succeeds exactly when every line passes its test; then `currentLine` is the number of lines plus one and `startLine` is 0 if no line opens an event, else the last such line's number plus one; otherwise it fails at the first failing line |

## Left out

- `Helpers.downloadICS` (network download into a file) is not part of this model. It is I/O that swallows every exception.
- Argument handling, the `DOWNLOAD` action and `System.exit` in `Main.main` are not modelled. They are command-line glue.
- `BufferedReader`/`FileReader`: the file is given as a sequence of lines. How `readLine` recognises line terminators and its `IOException` are not modelled.
- IcsScan.Scan: `currentLine` and `startLine` are Java `int`s. The model uses unbounded naturals, so wrap-around after 2^31 - 1 lines is not modelled.
- IcsScan.Scan: the Java exception reports only the index and the array length. The line number in `ScanError` is extra context added by the model.
- `BEGIN` and `VEVENT` are non-final statics in the source. Nothing reassigns them, so they are constants here.
- The service URLs, container name, credential, file names and the unused field-key constants are configuration with no behaviour.
- The `if (startLine > 0)` branch has an empty body, so the model builds no events. Location normalisation, timestamp conversion, RDF graph building, SHACL validation, LDP upload and `owl:sameAs` linking do not exist in these files.
- Java strings are sequences of UTF-16 code units. They are modelled as `seq<char>`, and `equals` as sequence equality.
