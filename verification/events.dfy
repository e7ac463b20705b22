/** The response mapper: `PyndicoEventResponse` turning one decoded result
    of an event export into an event record with a catalogue of dated
    contributions, and the per-result filter of `Pyndico.get_event`. */
module Events {
  import opened Wrappers
  import opened Json
  import opened Comprehension
  import opened Text

  /** One downloadable file of a contribution. */
  datatype Attachment = Attachment(filename: Json, title: Json, url: Json)

  /** One catalogued contribution. */
  datatype Contribution = Contribution(
    title: Json,
    speakers: seq<Json>,
    attachments: seq<Attachment>,
    time: Json,
    tz: Json)

  /** The attributes `_set_attributes` reads off an event result. */
  datatype Event = Event(
    room: Json,
    id: Json,
    category: Json,
    startDate: Json,
    startTime: Json,
    timeZone: Json,
    location: Json,
    title: Json,
    catalogue: seq<Contribution>)

  /** Every key the mapper subscripts. */
  const MappedKeys: set<string> := {
    "roomFullname", "id", "category", "startDate", "date", "time", "tz",
    "location", "title", "contributions", "speakers", "fullName", "folders",
    "attachments", "type", "filename", "download_url" }

  /** An error the mapper can raise: a `TypeError`, or a `KeyError` naming
      one of the keys it reads. */
  predicate Expected(e: Error) {
    e.TypeError? || e.key in MappedKeys
  }

  // Speakers

  /** The `fullName` lookups of the speaker comprehension, in order. */
  function NameReads(ns: seq<Json>): seq<Option<Error>> {
    seq(|ns|, i requires 0 <= i < |ns| => Raised(Index(ns[i], "fullName")))
  }

  /** `[n['fullName'] for n in speakers]`. A failure is the exception of
      the first entry without a `fullName`: `KeyError('fullName')` for an
      object lacking it, `TypeError` for a non-object. */
  function Speakers(ns: seq<Json>): (r: Result<seq<Json>>)
    ensures r.Success? <==> forall i :: 0 <= i < |ns| ==> Index(ns[i], "fullName").Success?
    ensures r.Success? ==>
      && |r.value| == |ns|
      && forall i :: 0 <= i < |ns| ==> Index(ns[i], "fullName") == Success(r.value[i])
    ensures r.Failure? ==> exists i :: FailsAt(NameReads(ns), i, r.error)
    ensures r.Failure? ==> Expected(r.error)
  {
    if |ns| == 0 then Success([])
    else
      var name := Index(ns[0], "fullName");
      if name.Failure? then
        assert FailsAt(NameReads(ns), 0, name.error);
        Failure(name.error)
      else
        var rest := Speakers(ns[1..]);
        if rest.Failure? then
          assert NameReads(ns)[1..] == NameReads(ns[1..]);
          FailureMovesOn(NameReads(ns), rest.error);
          Failure(rest.error)
        else
          assert forall i :: 1 <= i < |ns| ==> ns[i] == ns[1..][i - 1];
          Success([name.value] + rest.value)
  }

  // Attachments

  /** `attachment['type'] == 'file'`. */
  function FileGuard(a: Json): (r: Result<bool>)
    ensures r.Success? <==> Index(a, "type").Success?
    ensures r.Success? ==> (r.value <==> Index(a, "type") == Success(JStr("file")))
    ensures r.Failure? ==> r.error == (if a.JObj? then KeyError("type") else TypeError)
  {
    var kind :- Index(a, "type");
    Success(kind == JStr("file"))
  }

  /** The record built for one file entry. */
  function AttachmentOf(a: Json): (r: Result<Attachment>)
    ensures r.Success? <==>
      Index(a, "filename").Success? && Index(a, "title").Success? && Index(a, "download_url").Success?
    ensures r.Success? ==>
      && Index(a, "filename") == Success(r.value.filename)
      && Index(a, "title") == Success(r.value.title)
      && Index(a, "download_url") == Success(r.value.url)
    ensures !a.JObj? ==> r == Failure(TypeError)
    ensures a.JObj? && r.Failure? ==>
      r.error == KeyError(if "filename" !in a.fields then "filename"
                          else if "title" !in a.fields then "title"
                          else "download_url")
  {
    var filename :- Index(a, "filename");
    var title :- Index(a, "title");
    var url :- Index(a, "download_url");
    Success(Attachment(filename, title, url))
  }

  /** An entry the inner loop gets past: it has a `type`, and a file entry
      has the three fields copied. */
  predicate AttachmentOk(a: Json) {
    Passes(a, FileGuard, AttachmentOf)
  }

  /** The file entries of `entries`, in order. */
  function Files(entries: seq<Json>): seq<Json> {
    Kept(entries, FileGuard)
  }

  /** The inner loop over one list of attachment entries: keep the file
      entries, skip the others. */
  function FileAttachments(entries: seq<Json>): (r: Result<seq<Attachment>>)
    ensures r.Success? <==> forall i :: 0 <= i < |entries| ==> AttachmentOk(entries[i])
    ensures r.Success? ==>
      && |r.value| == |Files(entries)|
      && forall i :: 0 <= i < |r.value| ==> AttachmentOf(Files(entries)[i]) == Success(r.value[i])
    ensures r.Failure? ==> exists i :: FirstFailure(entries, i, FileGuard, AttachmentOf, r.error)
    ensures r.Failure? ==> Expected(r.error)
  {
    CollectSucceeds(entries, FileGuard, AttachmentOf);
    var r := Collect(entries, FileGuard, AttachmentOf);
    if r.Success? then
      CollectEntries(entries, FileGuard, AttachmentOf);
      r
    else
      r
  }

  /** `f['attachments']`, iterated. */
  function FolderEntries(f: Json): Result<seq<Json>> {
    var attachments :- Index(f, "attachments");
    Elements(attachments)
  }

  /** The attachment entries of all folders, folder by folder. */
  function AllEntries(folders: seq<Json>): seq<Json> {
    if |folders| == 0 then []
    else
      (if FolderEntries(folders[0]).Success? then FolderEntries(folders[0]).value else [])
      + AllEntries(folders[1..])
  }

  /** A folder the nested loop gets past: its `attachments` iterate and
      every entry of them passes the inner loop. */
  predicate FolderPasses(f: Json) {
    FolderEntries(f).Success? && FileAttachments(FolderEntries(f).value).Success?
  }

  /** Folder `i` is the first the nested loop cannot get past, and raises
      `e`: either reading its `attachments` raises `e`, or the inner loop
      over them first fails with `e`. */
  ghost predicate FolderFailsAt(folders: seq<Json>, i: int, e: Error) {
    && 0 <= i < |folders|
    && (forall m :: 0 <= m < i ==> FolderPasses(folders[m]))
    && (|| FolderEntries(folders[i]) == Failure(e)
        || (&& FolderEntries(folders[i]).Success?
            && exists k :: FirstFailure(FolderEntries(folders[i]).value, k, FileGuard, AttachmentOf, e)))
  }

  /** The nested loop over folders and their attachments: the result is the
      file entries of all folders flattened in folder-then-attachment order,
      and a failure is that of the first folder it cannot get past. */
  function FolderAttachments(folders: seq<Json>): (r: Result<seq<Attachment>>)
    ensures r.Success? <==>
      && (forall i :: 0 <= i < |folders| ==> FolderEntries(folders[i]).Success?)
      && FileAttachments(AllEntries(folders)).Success?
    ensures r.Success? ==> r == FileAttachments(AllEntries(folders))
    ensures r.Failure? ==> exists i :: FolderFailsAt(folders, i, r.error)
    ensures r.Failure? ==> Expected(r.error)
  {
    if |folders| == 0 then Success([])
    else
      assert (forall i :: 0 <= i < |folders| ==> FolderEntries(folders[i]).Success?)
        <==> FolderEntries(folders[0]).Success?
             && forall i :: 0 <= i < |folders[1..]| ==> FolderEntries(folders[1..][i]).Success?
      by { assert forall i :: 1 <= i < |folders| ==> folders[i] == folders[1..][i - 1]; }
      var first := FolderEntries(folders[0]);
      if first.Failure? then
        assert FolderFailsAt(folders, 0, first.error);
        Failure(first.error)
      else
        var entries := first.value;
        assert AllEntries(folders) == entries + AllEntries(folders[1..]);
        CollectSplit(entries, AllEntries(folders[1..]), FileGuard, AttachmentOf);
        var here := FileAttachments(entries);
        if here.Failure? then
          assert FolderFailsAt(folders, 0, here.error);
          Failure(here.error)
        else
          var rest := FolderAttachments(folders[1..]);
          if rest.Failure? then
            FolderFailureShift(folders, rest.error);
            Failure(rest.error)
          else
            CollectConcat(entries, AllEntries(folders[1..]), FileGuard, AttachmentOf);
            Success(here.value + rest.value)
  }

  lemma FolderFailureShift(folders: seq<Json>, e: Error)
    requires |folders| > 0 && FolderPasses(folders[0])
    requires exists i :: FolderFailsAt(folders[1..], i, e)
    ensures exists i :: FolderFailsAt(folders, i, e)
  {
    var i :| FolderFailsAt(folders[1..], i, e);
    forall m | 0 <= m < i + 1
      ensures FolderPasses(folders[m])
    {
      if m > 0 {
        assert folders[m] == folders[1..][m - 1];
      }
    }
    assert folders[i + 1] == folders[1..][i];
    assert FolderFailsAt(folders, i + 1, e);
  }

  // Contributions

  /** `c['speakers']`, iterated. */
  function SpeakerEntries(c: Json): Result<seq<Json>> {
    var speakers :- Index(c, "speakers");
    Elements(speakers)
  }

  /** `c['folders']`, iterated. */
  function FolderList(c: Json): Result<seq<Json>> {
    var folders :- Index(c, "folders");
    Elements(folders)
  }

  /** The start object's field `key`. */
  function StartField(j: Json, key: string): Result<Json> {
    var start :- Index(j, "startDate");
    Index(start, key)
  }

  /** `_catalogue_contribution(c)`. */
  function CatalogueEntry(c: Json): (r: Result<Contribution>)
    ensures r.Success? <==>
      && StartField(c, "time").Success? && StartField(c, "tz").Success?
      && Index(c, "title").Success?
      && SpeakerEntries(c).Success? && Speakers(SpeakerEntries(c).value).Success?
      && FolderList(c).Success? && FolderAttachments(FolderList(c).value).Success?
    ensures r.Failure? ==> Expected(r.error)
  {
    var start :- Index(c, "startDate");
    var time :- Index(start, "time");
    var tz :- Index(start, "tz");
    var title :- Index(c, "title");
    var speakerEntries :- SpeakerEntries(c);
    var speakers :- Speakers(speakerEntries);
    var folders :- FolderList(c);
    var attachments :- FolderAttachments(folders);
    Success(Contribution(title, speakers, attachments, time, tz))
  }

  /** The reads `_catalogue_contribution` makes, in order: `startDate`,
      its `time` and `tz`, `title`, the iteration of `speakers` and the
      comprehension over it, then the iteration of `folders` and the nested
      loop over them. A step that needs an earlier value completes trivially
      when that value is missing, since the earlier step fails first. */
  function EntryReads(c: Json): seq<Option<Error>> {
    [ Raised(Index(c, "startDate")), Raised(StartField(c, "time")), Raised(StartField(c, "tz")),
      Raised(Index(c, "title")),
      Raised(SpeakerEntries(c)),
      if SpeakerEntries(c).Success? then Raised(Speakers(SpeakerEntries(c).value)) else None,
      Raised(FolderList(c)),
      if FolderList(c).Success? then Raised(FolderAttachments(FolderList(c).value)) else None ]
  }

  /** `_catalogue_contribution(c)` raises the exception of its first read
      that fails, and completes exactly when none does. */
  lemma CatalogueEntryRaises(c: Json)
    ensures CatalogueEntry(c).Success? <==> Completes(EntryReads(c))
    ensures CatalogueEntry(c).Failure? ==> exists n :: FailsAt(EntryReads(c), n, CatalogueEntry(c).error)
  {
    if CatalogueEntry(c).Failure? {
      if Index(c, "startDate").Failure? || StartField(c, "time").Failure?
         || StartField(c, "tz").Failure? || Index(c, "title").Failure? {
        EntryFailsEarly(c);
      } else {
        EntryFailsLate(c);
      }
    } else {
      assert Completes(EntryReads(c));
    }
  }

  lemma EntryFailsEarly(c: Json)
    requires Index(c, "startDate").Failure? || StartField(c, "time").Failure?
             || StartField(c, "tz").Failure? || Index(c, "title").Failure?
    ensures exists n :: FailsAt(EntryReads(c), n, CatalogueEntry(c).error)
  {
    var s := EntryReads(c);
    var e := CatalogueEntry(c);
    if Index(c, "startDate").Failure? {
      assert FailsAt(s, 0, e.error);
    } else if StartField(c, "time").Failure? {
      assert FailsAt(s, 1, e.error);
    } else if StartField(c, "tz").Failure? {
      assert FailsAt(s, 2, e.error);
    } else {
      assert FailsAt(s, 3, e.error);
    }
  }

  lemma EntryFailsLate(c: Json)
    requires StartField(c, "time").Success? && StartField(c, "tz").Success? && Index(c, "title").Success?
    requires CatalogueEntry(c).Failure?
    ensures exists n :: FailsAt(EntryReads(c), n, CatalogueEntry(c).error)
  {
    if SpeakerEntries(c).Failure? || Speakers(SpeakerEntries(c).value).Failure? {
      EntryFailsOnSpeakers(c);
    } else {
      EntryFailsOnFolders(c);
    }
  }

  lemma EntryFailsOnSpeakers(c: Json)
    requires StartField(c, "time").Success? && StartField(c, "tz").Success? && Index(c, "title").Success?
    requires SpeakerEntries(c).Failure? || Speakers(SpeakerEntries(c).value).Failure?
    ensures exists n :: FailsAt(EntryReads(c), n, CatalogueEntry(c).error)
  {
    var s := EntryReads(c);
    var e := CatalogueEntry(c);
    assert s[0].None? && s[1].None? && s[2].None? && s[3].None?;
    if SpeakerEntries(c).Failure? {
      assert FailsAt(s, 4, e.error);
    } else {
      assert FailsAt(s, 5, e.error);
    }
  }

  lemma EntryFailsOnFolders(c: Json)
    requires StartField(c, "time").Success? && StartField(c, "tz").Success? && Index(c, "title").Success?
    requires SpeakerEntries(c).Success? && Speakers(SpeakerEntries(c).value).Success?
    requires CatalogueEntry(c).Failure?
    ensures exists n :: FailsAt(EntryReads(c), n, CatalogueEntry(c).error)
  {
    var s := EntryReads(c);
    var e := CatalogueEntry(c);
    assert s[0].None? && s[1].None? && s[2].None? && s[3].None? && s[4].None? && s[5].None?;
    if FolderList(c).Failure? {
      assert FailsAt(s, 6, e.error);
    } else {
      var r := FolderAttachments(FolderList(c).value);
      assert r.Failure?;
      assert e.error == r.error;
      assert s[6].None? && s[7] == Some(r.error);
      forall m | 0 <= m < 7
        ensures s[m].None?
      {
        if m < 3 {
          assert m == 0 || m == 1 || m == 2;
        } else {
          assert m == 3 || m == 4 || m == 5 || m == 6;
        }
      }
      assert FailsAt(s, 7, e.error);
    }
  }

  /** A catalogued contribution carries the start object's `time` and `tz`,
      the `title`, the `fullName` of each speaker in order, and the file
      entries of all folders in folder-then-attachment order. */
  lemma CatalogueEntryFields(c: Json)
    requires CatalogueEntry(c).Success?
    ensures var e := CatalogueEntry(c).value;
      && StartField(c, "time") == Success(e.time)
      && StartField(c, "tz") == Success(e.tz)
      && Index(c, "title") == Success(e.title)
      && SpeakerEntries(c).Success?
      && |e.speakers| == |SpeakerEntries(c).value|
      && (forall i :: 0 <= i < |e.speakers| ==>
            Index(SpeakerEntries(c).value[i], "fullName") == Success(e.speakers[i]))
      && FolderList(c).Success?
      && FileAttachments(AllEntries(FolderList(c).value)) == Success(e.attachments)
  {
  }

  /** `c['startDate'] != None`. */
  function StartGuard(c: Json): (r: Result<bool>)
    ensures r.Success? <==> Index(c, "startDate").Success?
    ensures r.Success? ==> (r.value <==> Index(c, "startDate").value != JNull)
    ensures r.Failure? ==> r.error == (if c.JObj? then KeyError("startDate") else TypeError)
  {
    var start :- Index(c, "startDate");
    Success(start != JNull)
  }

  /** A contribution with a non-null `startDate`. */
  predicate Dated(c: Json) {
    StartGuard(c) == Success(true)
  }

  /** The dated contributions of `cs`, in order. */
  function Retained(cs: seq<Json>): seq<Json> {
    Kept(cs, StartGuard)
  }

  /** A contribution the comprehension gets past: it has a `startDate`, and
      a dated one catalogues without error. */
  predicate ContributionOk(c: Json) {
    Passes(c, StartGuard, CatalogueEntry)
  }

  /** `[_catalogue_contribution(c) for c in contributions if c['startDate'] != None]`. */
  function Catalogue(cs: seq<Json>): (r: Result<seq<Contribution>>)
    ensures r.Success? <==> forall i :: 0 <= i < |cs| ==> ContributionOk(cs[i])
    ensures r.Success? ==>
      && |r.value| == |Retained(cs)|
      && forall i :: 0 <= i < |r.value| ==> CatalogueEntry(Retained(cs)[i]) == Success(r.value[i])
    ensures r.Failure? ==> exists i :: FirstFailure(cs, i, StartGuard, CatalogueEntry, r.error)
    ensures r.Failure? ==> Expected(r.error)
  {
    CollectSucceeds(cs, StartGuard, CatalogueEntry);
    var r := Collect(cs, StartGuard, CatalogueEntry);
    if r.Success? then
      CollectEntries(cs, StartGuard, CatalogueEntry);
      r
    else
      r
  }

  // Events

  /** `result['contributions']`, iterated. */
  function ContributionEntries(j: Json): Result<seq<Json>> {
    var contributions :- Index(j, "contributions");
    Elements(contributions)
  }

  /** `PyndicoEventResponse(result)`: it completes exactly when every field
      `_set_attributes` reads is there and the catalogue builds. */
  function MapEvent(j: Json): (r: Result<Event>)
    ensures r.Success? <==>
      && Index(j, "roomFullname").Success? && Index(j, "id").Success? && Index(j, "category").Success?
      && StartField(j, "date").Success? && StartField(j, "time").Success? && StartField(j, "tz").Success?
      && Index(j, "location").Success? && Index(j, "title").Success?
      && ContributionEntries(j).Success? && Catalogue(ContributionEntries(j).value).Success?
    ensures !j.JObj? ==> r == Failure(TypeError)
    ensures r.Failure? ==> Expected(r.error)
  {
    var room :- Index(j, "roomFullname");
    var id :- Index(j, "id");
    var category :- Index(j, "category");
    var start :- Index(j, "startDate");
    var date :- Index(start, "date");
    var time :- Index(start, "time");
    var tz :- Index(start, "tz");
    var location :- Index(j, "location");
    var title :- Index(j, "title");
    var contributions :- ContributionEntries(j);
    var catalogue :- Catalogue(contributions);
    Success(Event(room, id, category, date, time, tz, location, title, catalogue))
  }

  /** The reads `_set_attributes` makes, in order (the ten subscripts, the
      iteration of `contributions`, then the catalogue comprehension). */
  function EventReads(j: Json): seq<Option<Error>> {
    [ Raised(Index(j, "roomFullname")), Raised(Index(j, "id")), Raised(Index(j, "category")),
      Raised(Index(j, "startDate")),
      Raised(StartField(j, "date")), Raised(StartField(j, "time")), Raised(StartField(j, "tz")),
      Raised(Index(j, "location")), Raised(Index(j, "title")),
      Raised(ContributionEntries(j)),
      if ContributionEntries(j).Success? then Raised(Catalogue(ContributionEntries(j).value)) else None ]
  }

  /** `PyndicoEventResponse(result)` raises the exception of its first read
      that fails, and completes exactly when none does. */
  lemma MapEventRaises(j: Json)
    ensures MapEvent(j).Success? <==> Completes(EventReads(j))
    ensures MapEvent(j).Failure? ==> exists n :: FailsAt(EventReads(j), n, MapEvent(j).error)
  {
    if MapEvent(j).Failure? {
      if Index(j, "roomFullname").Failure? || Index(j, "id").Failure?
         || Index(j, "category").Failure? || Index(j, "startDate").Failure? {
        EventFailsEarly(j);
      } else if StartField(j, "date").Failure? || StartField(j, "time").Failure?
                || StartField(j, "tz").Failure? || Index(j, "location").Failure?
                || Index(j, "title").Failure? {
        EventFailsMiddle(j);
      } else {
        EventFailsLate(j);
      }
    } else {
      assert Completes(EventReads(j));
    }
  }

  lemma EventFailsEarly(j: Json)
    requires Index(j, "roomFullname").Failure? || Index(j, "id").Failure?
             || Index(j, "category").Failure? || Index(j, "startDate").Failure?
    ensures exists n :: FailsAt(EventReads(j), n, MapEvent(j).error)
  {
    var s := EventReads(j);
    var e := MapEvent(j);
    if Index(j, "roomFullname").Failure? {
      assert FailsAt(s, 0, e.error);
    } else if Index(j, "id").Failure? {
      assert FailsAt(s, 1, e.error);
    } else if Index(j, "category").Failure? {
      assert FailsAt(s, 2, e.error);
    } else {
      assert FailsAt(s, 3, e.error);
    }
  }

  lemma EventFailsMiddle(j: Json)
    requires Index(j, "roomFullname").Success? && Index(j, "id").Success?
    requires Index(j, "category").Success? && Index(j, "startDate").Success?
    requires StartField(j, "date").Failure? || StartField(j, "time").Failure?
             || StartField(j, "tz").Failure? || Index(j, "location").Failure?
             || Index(j, "title").Failure?
    ensures exists n :: FailsAt(EventReads(j), n, MapEvent(j).error)
  {
    var s := EventReads(j);
    var e := MapEvent(j);
    assert s[0].None? && s[1].None? && s[2].None? && s[3].None?;
    if StartField(j, "date").Failure? {
      assert FailsAt(s, 4, e.error);
    } else if StartField(j, "time").Failure? {
      assert FailsAt(s, 5, e.error);
    } else if StartField(j, "tz").Failure? {
      assert FailsAt(s, 6, e.error);
    } else if Index(j, "location").Failure? {
      assert FailsAt(s, 7, e.error);
    } else {
      assert FailsAt(s, 8, e.error);
    }
  }

  lemma EventFailsLate(j: Json)
    requires Index(j, "roomFullname").Success? && Index(j, "id").Success?
    requires Index(j, "category").Success?
    requires StartField(j, "date").Success? && StartField(j, "time").Success?
    requires StartField(j, "tz").Success? && Index(j, "location").Success?
    requires Index(j, "title").Success?
    requires MapEvent(j).Failure?
    ensures exists n :: FailsAt(EventReads(j), n, MapEvent(j).error)
  {
    var s := EventReads(j);
    var e := MapEvent(j);
    assert forall m :: 0 <= m < 9 ==> s[m].None?;
    if ContributionEntries(j).Failure? {
      assert FailsAt(s, 9, e.error);
    } else {
      assert FailsAt(s, 10, e.error);
    }
  }

  /** A mapped event's attributes are the corresponding fields of the
      result, and its catalogue holds one entry per dated contribution, in
      order. */
  lemma MapEventFields(j: Json)
    requires MapEvent(j).Success?
    ensures var e := MapEvent(j).value;
      && Index(j, "roomFullname") == Success(e.room)
      && Index(j, "id") == Success(e.id)
      && Index(j, "category") == Success(e.category)
      && StartField(j, "date") == Success(e.startDate)
      && StartField(j, "time") == Success(e.startTime)
      && StartField(j, "tz") == Success(e.timeZone)
      && Index(j, "location") == Success(e.location)
      && Index(j, "title") == Success(e.title)
      && ContributionEntries(j).Success?
      && |e.catalogue| == |Retained(ContributionEntries(j).value)|
      && (forall i :: 0 <= i < |e.catalogue| ==>
            CatalogueEntry(Retained(ContributionEntries(j).value)[i]) == Success(e.catalogue[i]))
  {
  }

  /** `str(event)`: `"<title>, <id>, <date>-<time>-<tz>"`. It is `None`
      when one of the five values cannot be formatted: a non-ASCII string
      raises `UnicodeEncodeError`, and a list or dictionary is not
      modelled. A line that is produced is ASCII. */
  function Summary(e: Event): (r: Option<string>)
    ensures r.Some? ==> IsAscii(r.value)
    ensures r.Some? <==>
      && Show(e.title).Some? && Show(e.id).Some? && Show(e.startDate).Some?
      && Show(e.startTime).Some? && Show(e.timeZone).Some?
    ensures r.Some? ==>
      r.value == Show(e.title).value + ", " + Show(e.id).value + ", "
                 + Show(e.startDate).value + "-" + Show(e.startTime).value + "-" + Show(e.timeZone).value
  {
    match (Show(e.title), Show(e.id), Show(e.startDate), Show(e.startTime), Show(e.timeZone))
    case (Some(title), Some(id), Some(date), Some(time), Some(tz)) =>
      SummaryAscii(title, id, date, time, tz);
      Some(title + ", " + id + ", " + date + "-" + time + "-" + tz)
    case _ => None
  }

  lemma SummaryAscii(title: string, id: string, date: string, time: string, tz: string)
    requires IsAscii(title) && IsAscii(id) && IsAscii(date) && IsAscii(time) && IsAscii(tz)
    ensures IsAscii(title + ", " + id + ", " + date + "-" + time + "-" + tz)
  {
    assert IsAscii(", ") && IsAscii("-");
    AsciiConcat(title, ", ");
    AsciiConcat(title + ", ", id);
    AsciiConcat(title + ", " + id, ", ");
    AsciiConcat(title + ", " + id + ", ", date);
    AsciiConcat(title + ", " + id + ", " + date, "-");
    AsciiConcat(title + ", " + id + ", " + date + "-", time);
    AsciiConcat(title + ", " + id + ", " + date + "-" + time, "-");
    AsciiConcat(title + ", " + id + ", " + date + "-" + time + "-", tz);
  }

  /** `str(PyndicoEventResponse(result))` read off the result itself: the
      `title`, the `id`, and the start object's `date`, `time` and `tz`,
      each formatted as `'{}'.format` does. */
  lemma SummaryOfResult(j: Json)
    requires MapEvent(j).Success?
    ensures var title := Show(Index(j, "title").value);
      var id := Show(Index(j, "id").value);
      var date := Show(StartField(j, "date").value);
      var time := Show(StartField(j, "time").value);
      var tz := Show(StartField(j, "tz").value);
      Summary(MapEvent(j).value)
      == if title.Some? && id.Some? && date.Some? && time.Some? && tz.Some?
         then Some(title.value + ", " + id.value + ", " + date.value + "-" + time.value + "-" + tz.value)
         else None
  {
    MapEventFields(j);
  }

  // The per-result loop of get_event

  /** A result that maps without raising. */
  predicate Maps(x: Json) {
    MapEvent(x).Success?
  }

  /** The results that map, in order. */
  function Mappable(xs: seq<Json>): (r: seq<Json>)
    ensures |r| <= |xs|
    ensures forall x :: x in r ==> x in xs && Maps(x)
  {
    if |xs| == 0 then []
    else (if Maps(xs[0]) then [xs[0]] else []) + Mappable(xs[1..])
  }

  /** The `try`/`except KeyError` loop: a result missing a key is skipped,
      any `TypeError` ends the whole call. */
  function KeepEvents(xs: seq<Json>): (r: Result<seq<Event>>)
    ensures r.Success? <==> forall i :: 0 <= i < |xs| ==> MapEvent(xs[i]) != Failure(TypeError)
    ensures r.Success? ==>
      && |r.value| == |Mappable(xs)|
      && forall i :: 0 <= i < |r.value| ==> MapEvent(Mappable(xs)[i]) == Success(r.value[i])
    ensures r.Failure? ==> r.error == TypeError
  {
    if |xs| == 0 then Success([])
    else
      NoTypeErrorCons(xs);
      match MapEvent(xs[0])
      case Success(e) =>
        var rest :- KeepEvents(xs[1..]);
        assert Mappable(xs) == [xs[0]] + Mappable(xs[1..]);
        assert forall i :: 0 < i < 1 + |rest| ==> ([e] + rest)[i] == rest[i - 1];
        Success([e] + rest)
      case Failure(TypeError) => Failure(TypeError)
      case Failure(KeyError(_)) =>
        assert Mappable(xs) == Mappable(xs[1..]);
        KeepEvents(xs[1..])
  }

  /** The loop's no-`TypeError` condition, split into head and tail. */
  lemma NoTypeErrorCons(xs: seq<Json>)
    requires |xs| > 0
    ensures (forall i :: 0 <= i < |xs| ==> MapEvent(xs[i]) != Failure(TypeError))
        <==> MapEvent(xs[0]) != Failure(TypeError)
             && forall i :: 0 <= i < |xs[1..]| ==> MapEvent(xs[1..][i]) != Failure(TypeError)
  {
    assert forall i :: 1 <= i < |xs| ==> xs[i] == xs[1..][i - 1];
  }

  /** `response['results']`, iterated. */
  function ResultEntries(response: Json): Result<seq<Json>> {
    var results :- Index(response, "results");
    Elements(results)
  }

  /** `get_event` after the fetch: the events of `response['results']` that
      map. The `results` lookup is outside the `try`, so its `KeyError`
      escapes, as does any `TypeError`. */
  function GetEvents(response: Json): (r: Result<seq<Event>>)
    ensures r.Success? <==>
      && ResultEntries(response).Success?
      && forall i :: 0 <= i < |ResultEntries(response).value| ==>
           MapEvent(ResultEntries(response).value[i]) != Failure(TypeError)
    ensures r.Success? ==>
      && |r.value| == |Mappable(ResultEntries(response).value)|
      && forall i :: 0 <= i < |r.value| ==>
           MapEvent(Mappable(ResultEntries(response).value)[i]) == Success(r.value[i])
    ensures !response.JObj? ==> r == Failure(TypeError)
    ensures response.JObj? && "results" !in response.fields ==> r == Failure(KeyError("results"))
    ensures ResultEntries(response).Success? && r.Failure? ==> r.error == TypeError
  {
    var entries :- ResultEntries(response);
    KeepEvents(entries)
  }

  // Which malformed results are skipped

  /** The keys `_set_attributes` subscripts, in order; `date`, `time` and
      `tz` are looked up in the start object. */
  const EventKeys: seq<string> :=
    ["roomFullname", "id", "category", "startDate", "date", "time", "tz", "location", "title", "contributions"]

  /** The lookup of one of `EventKeys`. */
  function KeyRead(j: Json, k: string): Result<Json> {
    if k == "date" || k == "time" || k == "tz" then StartField(j, k) else Index(j, k)
  }

  lemma KeyReadStep(j: Json, m: int)
    requires 0 <= m < |EventKeys|
    requires m < 9 || KeyRead(j, EventKeys[m]).Failure?
    ensures EventReads(j)[m] == Raised(KeyRead(j, EventKeys[m]))
  {
    if m < 5 {
      assert m == 0 || m == 1 || m == 2 || m == 3 || m == 4;
    } else {
      assert m == 5 || m == 6 || m == 7 || m == 8 || m == 9;
    }
  }

  /** A result object (whose start object, if any, is an object) that lacks
      a key makes `PyndicoEventResponse` raise `KeyError` naming the first
      missing key in the order `_set_attributes` reads them, so the loop of
      `get_event` skips that result and goes on with the rest. */
  lemma MissingKeySkipped(j: Json, n: int, xs: seq<Json>)
    requires j.JObj?
    requires Index(j, "startDate").Success? ==> Index(j, "startDate").value.JObj?
    requires 0 <= n < |EventKeys|
    requires forall m :: 0 <= m < n ==> KeyRead(j, EventKeys[m]).Success?
    requires KeyRead(j, EventKeys[n]).Failure?
    ensures MapEvent(j) == Failure(KeyError(EventKeys[n]))
    ensures KeepEvents([j] + xs) == KeepEvents(xs)
  {
    var s := EventReads(j);
    forall m | 0 <= m < n
      ensures s[m].None?
    {
      KeyReadStep(j, m);
    }
    KeyReadStep(j, n);
    if 4 <= n <= 6 {
      assert KeyRead(j, EventKeys[3]).Success?;
    }
    assert FailsAt(s, n, KeyError(EventKeys[n]));
    MapEventRaises(j);
    var n' :| FailsAt(s, n', MapEvent(j).error);
    FailsAtUnique(s, n, KeyError(EventKeys[n]), n', MapEvent(j).error);
    assert ([j] + xs)[0] == j;
    assert ([j] + xs)[1..] == xs;
  }

  /** A value that, when present, is a list of objects. */
  predicate ObjectsOrAbsent(r: Result<Json>) {
    r.Success? ==> r.value.JArr? && forall x :: x in r.value.items ==> x.JObj?
  }

  /** A folder as the nested loop expects it: an object whose
      `attachments`, if present, are a list of objects. */
  predicate FolderShaped(f: Json) {
    f.JObj? && ObjectsOrAbsent(Index(f, "attachments"))
  }

  /** A contribution as `_catalogue_contribution` expects it: an object
      whose `startDate`, when present and not null, is an object, whose
      `speakers` are objects and whose `folders` are shaped folders. Any
      key may be missing. */
  predicate ContributionShaped(c: Json) {
    && c.JObj?
    && (Index(c, "startDate").Success? && Index(c, "startDate").value != JNull ==>
          Index(c, "startDate").value.JObj?)
    && ObjectsOrAbsent(Index(c, "speakers"))
    && (Index(c, "folders").Success? ==>
          && Index(c, "folders").value.JArr?
          && forall f :: f in Index(c, "folders").value.items ==> FolderShaped(f))
  }

  /** A result as `_set_attributes` expects it: an object whose
      `startDate`, when present, is an object and whose `contributions`,
      when present, are a list of shaped contributions. Any key may be
      missing. */
  predicate ResultShaped(j: Json) {
    && j.JObj?
    && (Index(j, "startDate").Success? ==> Index(j, "startDate").value.JObj?)
    && (Index(j, "contributions").Success? ==>
          && Index(j, "contributions").value.JArr?
          && forall c :: c in Index(j, "contributions").value.items ==> ContributionShaped(c))
  }

  lemma AttachmentsRaiseKeyError(entries: seq<Json>, k: int, e: Error)
    requires forall x :: x in entries ==> x.JObj?
    requires FirstFailure(entries, k, FileGuard, AttachmentOf, e)
    ensures e.KeyError?
  {
    assert entries[k] in entries;
  }

  lemma FoldersRaiseKeyError(folders: seq<Json>, i: int, e: Error)
    requires forall f :: f in folders ==> FolderShaped(f)
    requires FolderFailsAt(folders, i, e)
    ensures e.KeyError?
  {
    var f := folders[i];
    assert f in folders;
    if FolderEntries(f).Success? && FolderEntries(f) != Failure(e) {
      var k :| FirstFailure(FolderEntries(f).value, k, FileGuard, AttachmentOf, e);
      AttachmentsRaiseKeyError(FolderEntries(f).value, k, e);
    }
  }

  /** On a shaped dated contribution, `_catalogue_contribution` can only
      raise `KeyError`. */
  lemma ContributionRaisesKeyError(c: Json)
    requires ContributionShaped(c) && Dated(c)
    requires CatalogueEntry(c).Failure?
    ensures CatalogueEntry(c).error.KeyError?
  {
    var s := EntryReads(c);
    var e := CatalogueEntry(c).error;
    CatalogueEntryRaises(c);
    var n :| FailsAt(s, n, e);
    if n == 5 {
      var ns := SpeakerEntries(c).value;
      var i :| FailsAt(NameReads(ns), i, e);
      assert ns[i] in ns;
    } else if n == 7 {
      var fs := FolderList(c).value;
      var i :| FolderFailsAt(fs, i, e);
      FoldersRaiseKeyError(fs, i, e);
    } else if n < 4 {
      assert n == 0 || n == 1 || n == 2 || n == 3;
    } else {
      assert n == 4 || n == 6;
    }
  }

  lemma CatalogueRaisesKeyError(cs: seq<Json>)
    requires forall c :: c in cs ==> ContributionShaped(c)
    requires Catalogue(cs).Failure?
    ensures Catalogue(cs).error.KeyError?
  {
    var e := Catalogue(cs).error;
    var i :| FirstFailure(cs, i, StartGuard, CatalogueEntry, e);
    assert cs[i] in cs;
    if StartGuard(cs[i]).Success? {
      ContributionRaisesKeyError(cs[i]);
    }
  }

  /** On a shaped result, `PyndicoEventResponse` can only raise
      `KeyError`, however many keys are missing: `get_event` skips such a
      result rather than failing. */
  lemma ShapedResultSkipped(j: Json)
    requires ResultShaped(j)
    ensures MapEvent(j).Failure? ==> MapEvent(j).error.KeyError?
  {
    if MapEvent(j).Failure? {
      var s := EventReads(j);
      var e := MapEvent(j).error;
      MapEventRaises(j);
      var n :| FailsAt(s, n, e);
      if n == 10 {
        CatalogueRaisesKeyError(ContributionEntries(j).value);
      } else if n < 5 {
        assert n == 0 || n == 1 || n == 2 || n == 3 || n == 4;
      } else {
        assert n == 5 || n == 6 || n == 7 || n == 8 || n == 9;
      }
    }
  }

  /** `get_event` completes on every response whose `results` are a list
      of shaped results: malformed results are skipped, never fatal. */
  lemma ShapedResponseCompletes(response: Json)
    requires ResultEntries(response).Success?
    requires forall x :: x in ResultEntries(response).value ==> ResultShaped(x)
    ensures GetEvents(response).Success?
  {
    var xs := ResultEntries(response).value;
    forall i | 0 <= i < |xs|
      ensures MapEvent(xs[i]) != Failure(TypeError)
    {
      assert xs[i] in xs;
      ShapedResultSkipped(xs[i]);
    }
  }

  // A worked example

  const SlidesEntry: Json := JObj(map[
    "type" := JStr("file"), "filename" := JStr("slides.pdf"),
    "title" := JStr("Slides"), "download_url" := JStr("https://host/slides.pdf")])

  const LinkEntry: Json := JObj(map["type" := JStr("link"), "title" := JStr("Video")])

  const UndatedTalk: Json := JObj(map["startDate" := JNull, "title" := JStr("Coffee")])

  const DatedTalk: Json := JObj(map[
    "startDate" := JObj(map["date" := JStr("2024-05-02"), "time" := JStr("10:00:00"), "tz" := JStr("UTC")]),
    "title" := JStr("Results"),
    "speakers" := JArr([JObj(map["fullName" := JStr("Doe, Jane")])]),
    "folders" := JArr([JObj(map["attachments" := JArr([SlidesEntry, LinkEntry])])])])

  const SampleResult: Json := JObj(map[
    "roomFullname" := JStr("Main hall"), "id" := JStr("42"), "category" := JStr("Physics"),
    "startDate" := JObj(map["date" := JStr("2024-05-02"), "time" := JStr("09:00:00"), "tz" := JStr("UTC")]),
    "location" := JStr("Geneva"), "title" := JStr("Workshop"),
    "contributions" := JArr([UndatedTalk, DatedTalk])])

  const Slides: Attachment := Attachment(JStr("slides.pdf"), JStr("Slides"), JStr("https://host/slides.pdf"))

  const Folder: Json := JObj(map["attachments" := JArr([SlidesEntry, LinkEntry])])

  const Speaker: Json := JObj(map["fullName" := JStr("Doe, Jane")])

  const Talk: Contribution :=
    Contribution(JStr("Results"), [JStr("Doe, Jane")], [Slides], JStr("10:00:00"), JStr("UTC"))

  /** Of a file entry and a link entry, only the file is kept. */
  lemma SampleAttachments()
    ensures FolderAttachments([Folder]) == Success([Slides])
  {
    assert AttachmentOf(SlidesEntry) == Success(Slides);
    assert Index(LinkEntry, "type") == Success(JStr("link"));
    assert FileAttachments([LinkEntry]) == Success([]) by {
      assert [LinkEntry][1..] == [];
    }
    assert FileAttachments([SlidesEntry, LinkEntry]) == Success([Slides]) by {
      assert [SlidesEntry, LinkEntry][1..] == [LinkEntry];
      assert [Slides] + [] == [Slides];
    }
    assert FolderEntries(Folder) == Success([SlidesEntry, LinkEntry]);
    assert [Folder][1..] == [];
    assert [Slides] + [] == [Slides];
  }

  const TalkStart: Json := JObj(map["date" := JStr("2024-05-02"), "time" := JStr("10:00:00"), "tz" := JStr("UTC")])

  /** The fields of the dated talk that the mapper reads. */
  lemma SampleTalkFields()
    ensures Index(DatedTalk, "startDate") == Success(TalkStart)
    ensures Index(TalkStart, "time") == Success(JStr("10:00:00"))
    ensures Index(TalkStart, "tz") == Success(JStr("UTC"))
    ensures Index(DatedTalk, "title") == Success(JStr("Results"))
    ensures SpeakerEntries(DatedTalk) == Success([Speaker])
    ensures FolderList(DatedTalk) == Success([Folder])
  {
  }

  /** The dated talk catalogues with its speaker's full name and its file. */
  lemma SampleContribution()
    ensures CatalogueEntry(DatedTalk) == Success(Talk)
  {
    SampleAttachments();
    SampleTalkFields();
    assert Speakers([Speaker]) == Success([JStr("Doe, Jane")]) by {
      assert [Speaker][1..] == [];
      assert [JStr("Doe, Jane")] + [] == [JStr("Doe, Jane")];
    }
  }


  /** Of two contributions only the dated one is catalogued. */
  lemma SampleCatalogue()
    ensures Catalogue([UndatedTalk, DatedTalk]) == Success([Talk])
  {
    SampleContribution();
    assert Index(UndatedTalk, "startDate") == Success(JNull);
    assert Catalogue([DatedTalk]) == Success([Talk]) by {
      assert [DatedTalk][1..] == [];
      assert [Talk] + [] == [Talk];
    }
    assert [UndatedTalk, DatedTalk][1..] == [DatedTalk];
  }

  const SampleStart: Json := JObj(map["date" := JStr("2024-05-02"), "time" := JStr("09:00:00"), "tz" := JStr("UTC")])

  /** The fields of the sample result that the mapper reads. */
  lemma SampleFields()
    ensures Index(SampleResult, "roomFullname") == Success(JStr("Main hall"))
    ensures Index(SampleResult, "id") == Success(JStr("42"))
    ensures Index(SampleResult, "category") == Success(JStr("Physics"))
    ensures Index(SampleResult, "startDate") == Success(SampleStart)
    ensures Index(SampleStart, "date") == Success(JStr("2024-05-02"))
    ensures Index(SampleStart, "time") == Success(JStr("09:00:00"))
    ensures Index(SampleStart, "tz") == Success(JStr("UTC"))
    ensures Index(SampleResult, "location") == Success(JStr("Geneva"))
    ensures Index(SampleResult, "title") == Success(JStr("Workshop"))
    ensures ContributionEntries(SampleResult) == Success([UndatedTalk, DatedTalk])
  {
  }

  /** The whole sample result maps to an event with a one-entry catalogue. */
  lemma SampleMapping()
    ensures MapEvent(SampleResult) == Success(Event(
      JStr("Main hall"), JStr("42"), JStr("Physics"),
      JStr("2024-05-02"), JStr("09:00:00"), JStr("UTC"),
      JStr("Geneva"), JStr("Workshop"), [Talk]))
  {
    SampleFields();
    SampleCatalogue();
  }

  /** A title with a non-ASCII character makes `str(event)` raise. */
  lemma SampleAccentedSummary()
    ensures Summary(Event(JNull, JStr("7"), JNull, JStr("Mon"), JStr("9h"), JNull, JNull, JStr("Caf\U{e9}"), [])).None?
  {
    assert "Caf\U{e9}"[3] as int == 233;
  }

  /** A summary line; a null time zone prints as `None`. */
  lemma SampleSummary()
    ensures Summary(Event(JNull, JStr("7"), JNull, JStr("Mon"), JStr("9h"), JNull, JNull, JStr("Talk"), []))
         == Some("Talk, 7, Mon-9h-None")
  {
    var e := Event(JNull, JStr("7"), JNull, JStr("Mon"), JStr("9h"), JNull, JNull, JStr("Talk"), []);
    var line := "Talk" + ", " + "7" + ", " + "Mon" + "-" + "9h" + "-" + "None";
    assert Show(e.timeZone) == Some("None");
    assert Summary(e) == Some(line);
    assert line == "Talk, 7, Mon-9h-None" by {
      assert |line| == 20;
      assert forall i :: 0 <= i < 20 ==> line[i] == "Talk, 7, Mon-9h-None"[i];
    }
  }
}
