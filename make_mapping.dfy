/** `qimba make-mapping` (qimba/commands/make_mapping.py): pairs the forward and reverse read
    files of a directory into samples and renders the mapping table. The directory listing is
    given as a sequence of entries, in the order the directory walk yields them. */
module MakeMapping {
  import opened Wrappers
  import opened Text
  import Sorting

  /** The file-pattern options `--ext`, `--strip`, `--tag-for` and `--tag-rev`. */
  datatype Pattern = Pattern(ext: string, strip: string, tagFor: string, tagRev: string)

  /** `(sample_name, is_forward)`, with `(None, False)` as `Unmatched`. */
  datatype Classified = Unmatched | Matched(sample: string, forward: bool)

  /** `name.split('')` raises `ValueError: empty separator`. */
  datatype ClassifyError = EmptySeparator

  /** `str(filename.name)[:-len(extension)]`: Python's slice with a negative end, so an empty
      extension leaves nothing and an extension longer than the name leaves nothing. */
  function Stem(path: string, ext: string): (name: string)
    ensures var b := Basename(path);
      |name| <= |b| && name == b[..|name|]
      && (0 < |ext| <= |b| ==> |name| == |b| - |ext|)
      && (|ext| == 0 || |ext| > |b| ==> name == "")
  {
    var b := Basename(path);
    var k := if 0 < |ext| <= |b| then |b| - |ext| else 0;
    b[..k]
  }

  /** The stem with every occurrence of a non-empty `--strip` removed. */
  function SampleName(path: string, p: Pattern): string
  {
    var stem := Stem(path, p.ext);
    if p.strip != "" then RemoveAll(stem, p.strip) else stem
  }

  /** `process_filename`. The forward tag is looked for first; `name.split(tag)[0]` is the text
      before the tag's first occurrence. */
  function ProcessFilename(path: string, p: Pattern): (r: Result<Classified, ClassifyError>)
    ensures !EndsWith(path, p.ext) ==> r == Ok(Unmatched)
  {
    if !EndsWith(path, p.ext) then Ok(Unmatched)
    else
      var name := SampleName(path, p);
      if Contains(name, p.tagFor) then
        if p.tagFor == "" then Err(EmptySeparator) else Ok(Matched(Before(name, p.tagFor), true))
      else if Contains(name, p.tagRev) then
        if p.tagRev == "" then Err(EmptySeparator) else Ok(Matched(Before(name, p.tagRev), false))
      else Ok(Unmatched)
  }

  /** An empty tag is in every string. */
  lemma ContainsEmpty(s: string)
    ensures Contains(s, "")
  {
    assert OccursAt(s, "", 0);
  }

  /** `process_filename` raises exactly when the extension matches and the first tag it tries is
      empty: the forward tag, or the reverse tag once the forward tag is absent. */
  lemma ProcessFilenameRaises(path: string, p: Pattern)
    ensures ProcessFilename(path, p).Err? <==>
      EndsWith(path, p.ext) && (p.tagFor == "" || (!Contains(SampleName(path, p), p.tagFor) && p.tagRev == ""))
  {
    ContainsEmpty(SampleName(path, p));
  }

  /** A forward match is the name up to the first forward tag, which it does not contain. */
  lemma ProcessFilenameForward(path: string, p: Pattern)
    requires ProcessFilename(path, p).Ok? && ProcessFilename(path, p).value.Matched?
    requires ProcessFilename(path, p).value.forward
    ensures var name := SampleName(path, p); var s := ProcessFilename(path, p).value.sample;
      EndsWith(path, p.ext) && s == name[..|s|] && OccursAt(name, p.tagFor, |s|) && !Contains(s, p.tagFor)
      && forall j :: 0 <= j < |s| ==> !OccursAt(name, p.tagFor, j)
  {
  }

  /** A reverse match means the forward tag is absent; it is the name up to the first reverse
      tag, which it does not contain. */
  lemma ProcessFilenameReverse(path: string, p: Pattern)
    requires ProcessFilename(path, p).Ok? && ProcessFilename(path, p).value.Matched?
    requires !ProcessFilename(path, p).value.forward
    ensures var name := SampleName(path, p); var s := ProcessFilename(path, p).value.sample;
      EndsWith(path, p.ext) && !Contains(name, p.tagFor)
      && s == name[..|s|] && OccursAt(name, p.tagRev, |s|) && !Contains(s, p.tagRev)
      && forall j :: 0 <= j < |s| ==> !OccursAt(name, p.tagRev, j)
  {
  }

  /** A file with the extension is left unmatched exactly when neither tag occurs in its name
      (an empty tag occurs in every name). */
  lemma ProcessFilenameUnmatched(path: string, p: Pattern)
    ensures EndsWith(path, p.ext) && ProcessFilename(path, p) == Ok(Unmatched) <==>
      EndsWith(path, p.ext) && !Contains(SampleName(path, p), p.tagFor) && !Contains(SampleName(path, p), p.tagRev)
  {
    ContainsEmpty(SampleName(path, p));
  }

  /** One item of the directory walk; only files are looked at. */
  datatype Entry = Entry(path: string, isFile: bool)

  /** The inner dict of `samples`: the first forward and reverse file kept for a sample. */
  datatype Files = Files(forward: Option<string>, reverse: Option<string>)

  datatype MapError =
    | Duplicate(forward: bool, sample: string, existing: string, found: string)
    | MissingForward(sample: string)

  /** `samples` (keys in insertion order, and the inner dicts) and `errors` during the scan. */
  datatype Pairing = Pairing(order: seq<string>, files: map<string, Files>, errors: seq<MapError>)

  const NoFiles := Files(None, None)
  const Start := Pairing([], map[], [])

  function Slot(f: Files, forward: bool): Option<string>
  {
    if forward then f.forward else f.reverse
  }

  function Fill(f: Files, forward: bool, path: string): Files
  {
    if forward then f.(forward := Some(path)) else f.(reverse := Some(path))
  }

  /** The classification of an entry, when it is a file that the pattern matched to a
      non-empty sample name (`if sample_id:` drops `None` and `''`). */
  function Match(e: Entry, p: Pattern): (m: Option<Classified>)
    ensures m.Some? ==> m.value.Matched? && m.value.sample != ""
  {
    if !e.isFile then None
    else
      match ProcessFilename(e.path, p)
      case Ok(Matched(id, forward)) => if id != "" then Some(Matched(id, forward)) else None
      case _ => None
  }

  /** Whether looking at the entry raises. */
  predicate Raises(e: Entry, p: Pattern)
  {
    e.isFile && ProcessFilename(e.path, p).Err?
  }

  /** One file matched to `id`: kept if its slot is free, otherwise reported as a duplicate. */
  function Place(st: Pairing, id: string, forward: bool, path: string): Pairing
  {
    var known := id in st.files;
    var f := if known then st.files[id] else NoFiles;
    var order := if known then st.order else st.order + [id];
    match Slot(f, forward)
    case Some(existing) => Pairing(order, st.files[id := f], st.errors + [Duplicate(forward, id, existing, path)])
    case None => Pairing(order, st.files[id := Fill(f, forward, path)], st.errors)
  }

  /** The scan loop of `cli` over a prefix of the walk. */
  function Pairs(entries: seq<Entry>, p: Pattern): Result<Pairing, ClassifyError>
    decreases |entries|
  {
    if |entries| == 0 then Ok(Start)
    else
      var e := entries[|entries| - 1];
      match Pairs(entries[..|entries| - 1], p)
      case Err(x) => Err(x)
      case Ok(st) =>
        if Raises(e, p) then Err(EmptySeparator)
        else if Match(e, p).Some? then Ok(Place(st, Match(e, p).value.sample, Match(e, p).value.forward, e.path))
        else Ok(st)
  }

  /** Once a file name raises, nothing after it is looked at. */
  lemma {:induction false} PairsRaised(entries: seq<Entry>, p: Pattern, i: nat)
    requires i <= |entries| && Pairs(entries[..i], p).Err?
    ensures Pairs(entries, p) == Pairs(entries[..i], p)
    decreases |entries|
  {
    if i < |entries| {
      var prev := entries[..|entries| - 1];
      assert prev[..i] == entries[..i];
      PairsRaised(prev, p, i);
    } else {
      assert entries[..i] == entries;
    }
  }

  /** The scan loop as it is written, over a `samples` dict and an `errors` list. */
  method Scan(entries: seq<Entry>, p: Pattern) returns (r: Result<Pairing, ClassifyError>)
    ensures r == Pairs(entries, p)
  {
    var order: seq<string> := [];
    var samples: map<string, Files> := map[];
    var errors: seq<MapError> := [];
    var i := 0;
    while i < |entries|
      invariant i <= |entries|
      invariant Pairs(entries[..i], p) == Ok(Pairing(order, samples, errors))
    {
      var e := entries[i];
      assert entries[..i + 1][..i] == entries[..i];
      if e.isFile {
        var c := ProcessFilename(e.path, p);
        if c.Err? {
          PairsRaised(entries, p, i + 1);
          return Err(c.error);
        }
        if c.value.Matched? && c.value.sample != "" {
          order, samples, errors := AddFile(order, samples, errors, c.value.sample, c.value.forward, e.path);
        }
      }
      i := i + 1;
    }
    assert entries[..i] == entries;
    return Ok(Pairing(order, samples, errors));
  }

  /** The scan loop's body for a file matched to `id`: `setdefault`, then keep the file in its
      free slot or report a duplicate. */
  method AddFile(order: seq<string>, samples: map<string, Files>, errors: seq<MapError>, id: string, forward: bool, path: string)
    returns (order': seq<string>, samples': map<string, Files>, errors': seq<MapError>)
    ensures Pairing(order', samples', errors') == Place(Pairing(order, samples, errors), id, forward, path)
  {
    order', samples', errors' := order, samples, errors;
    if id !in samples' {
      samples' := samples'[id := NoFiles];
      order' := order' + [id];
    }
    var f := samples'[id];
    var slot := if forward then f.forward else f.reverse;
    if slot.Some? {
      errors' := errors' + [Duplicate(forward, id, slot.value, path)];
      assert samples' == samples'[id := f];
    } else {
      samples' := samples'[id := Fill(f, forward, path)];
    }
  }

  predicate Distinct(s: seq<string>)
  {
    forall i, j :: 0 <= i < j < |s| ==> s[i] != s[j]
  }

  /** `samples` as an insertion-ordered dict: its keys are listed once each, and `''` is never one. */
  ghost predicate WellFormed(st: Pairing)
  {
    Distinct(st.order)
    && (forall id :: id in st.files <==> id in st.order)
    && "" !in st.files
  }

  /** The first file matched to `id` in direction `forward`. */
  function FirstMatch(entries: seq<Entry>, p: Pattern, id: string, forward: bool): Option<string>
    decreases |entries|
  {
    if |entries| == 0 then None
    else
      var before := FirstMatch(entries[..|entries| - 1], p, id, forward);
      var e := entries[|entries| - 1];
      if before.None? && Match(e, p) == Some(Matched(id, forward)) then Some(e.path) else before
  }

  /** How many files are matched to `id` in direction `forward`. */
  function MatchCount(entries: seq<Entry>, p: Pattern, id: string, forward: bool): nat
    decreases |entries|
  {
    if |entries| == 0 then 0
    else
      MatchCount(entries[..|entries| - 1], p, id, forward)
      + (if Match(entries[|entries| - 1], p) == Some(Matched(id, forward)) then 1 else 0)
  }

  /** How many duplicate errors name `id` and direction `forward`. */
  function DuplicateCount(errors: seq<MapError>, id: string, forward: bool): nat
    decreases |errors|
  {
    if |errors| == 0 then 0
    else
      var e := errors[|errors| - 1];
      DuplicateCount(errors[..|errors| - 1], id, forward)
      + (if e.Duplicate? && e.sample == id && e.forward == forward then 1 else 0)
  }

  lemma DuplicateCountAppend(errors: seq<MapError>, e: MapError, id: string, forward: bool)
    ensures DuplicateCount(errors + [e], id, forward)
      == DuplicateCount(errors, id, forward) + (if e.Duplicate? && e.sample == id && e.forward == forward then 1 else 0)
  {
    assert (errors + [e])[..|errors|] == errors;
  }

  lemma {:induction false} FirstMatchCount(entries: seq<Entry>, p: Pattern, id: string, forward: bool)
    ensures FirstMatch(entries, p, id, forward).Some? <==> MatchCount(entries, p, id, forward) > 0
    decreases |entries|
  {
    if |entries| > 0 {
      FirstMatchCount(entries[..|entries| - 1], p, id, forward);
    }
  }

  /** A scan that did not raise was one that did not raise on the entries before the last; the
      last entry either placed its file or left the state alone. */
  lemma PairsStep(entries: seq<Entry>, p: Pattern)
    requires |entries| > 0 && Pairs(entries, p).Ok?
    ensures var prev := entries[..|entries| - 1]; var e := entries[|entries| - 1];
      Pairs(prev, p).Ok? && !Raises(e, p)
      && Pairs(entries, p).value == match Match(e, p)
        case Some(m) => Place(Pairs(prev, p).value, m.sample, m.forward, e.path)
        case None => Pairs(prev, p).value
  {
  }

  /** The samples dict stays insertion-ordered: each key listed once, and never `''`. */
  lemma {:induction false} PairsWellFormed(entries: seq<Entry>, p: Pattern)
    requires Pairs(entries, p).Ok?
    ensures WellFormed(Pairs(entries, p).value)
    decreases |entries|
  {
    if |entries| > 0 {
      PairsStep(entries, p);
      PairsWellFormed(entries[..|entries| - 1], p);
    }
  }

  /** For every sample and direction, the scan keeps the first file matched; a sample is present
      exactly when some file matched it. */
  lemma {:induction false} PairsKeepsFirst(entries: seq<Entry>, p: Pattern)
    requires Pairs(entries, p).Ok?
    ensures var st := Pairs(entries, p).value;
      forall id, forward: bool :: id in st.files ==> Slot(st.files[id], forward) == FirstMatch(entries, p, id, forward)
    ensures var st := Pairs(entries, p).value;
      forall id :: id in st.files <==> FirstMatch(entries, p, id, true).Some? || FirstMatch(entries, p, id, false).Some?
    decreases |entries|
  {
    if |entries| > 0 {
      PairsStep(entries, p);
      PairsKeepsFirst(entries[..|entries| - 1], p);
    }
  }

  /** Every error of the scan is a duplicate naming the file kept for that sample and direction
      as the existing one, and a later file matched to them as the new one. */
  lemma {:induction false} PairsDuplicatesNameKept(entries: seq<Entry>, p: Pattern)
    requires Pairs(entries, p).Ok?
    ensures var st := Pairs(entries, p).value;
      forall e :: e in st.errors ==> e.Duplicate? && FirstMatch(entries, p, e.sample, e.forward) == Some(e.existing)
    ensures var st := Pairs(entries, p).value;
      forall e :: e in st.errors ==> exists k :: NewFileAt(entries, p, e, k)
    decreases |entries|
  {
    PairsErrorsExact(entries, p);
    LaterMatchesFound(entries, p);
    if |entries| > 0 {
      var prev := entries[..|entries| - 1];
      PairsStep(entries, p);
      PairsDuplicatesNameKept(prev, p);
      PairsKeepsFirst(prev, p);
      var st := Pairs(prev, p).value;
      forall e | e in st.errors ensures FirstMatch(entries, p, e.sample, e.forward) == Some(e.existing) {
      }
    }
  }

  /** The duplicate errors the scan reports, as a reference: in scan order, one for every file
      matched to a sample and direction that an earlier file already matched, naming that
      earlier file as the existing one and this file as the new one. */
  function LaterMatches(entries: seq<Entry>, p: Pattern): seq<MapError>
    decreases |entries|
  {
    if |entries| == 0 then []
    else
      var prev := entries[..|entries| - 1];
      var e := entries[|entries| - 1];
      LaterMatches(prev, p) + LaterMatch(prev, p, e)
  }

  /** The duplicate error, if any, that entry `e` adds after the entries `prev`. */
  function LaterMatch(prev: seq<Entry>, p: Pattern, e: Entry): seq<MapError>
  {
    match Match(e, p)
    case None => []
    case Some(m) =>
      match FirstMatch(prev, p, m.sample, m.forward)
      case None => []
      case Some(kept) => [Duplicate(m.forward, m.sample, kept, e.path)]
  }

  /** The scan's errors are exactly the later matches, in scan order. */
  lemma {:induction false} PairsErrorsExact(entries: seq<Entry>, p: Pattern)
    requires Pairs(entries, p).Ok?
    ensures Pairs(entries, p).value.errors == LaterMatches(entries, p)
    decreases |entries|
  {
    if |entries| > 0 {
      var prev := entries[..|entries| - 1];
      var e := entries[|entries| - 1];
      PairsStep(entries, p);
      PairsErrorsExact(prev, p);
      PairsKeepsFirst(prev, p);
      var st := Pairs(prev, p).value;
      if Match(e, p).Some? {
        var m := Match(e, p).value;
        PlaceErrors(st, m.sample, m.forward, e.path, FirstMatch(prev, p, m.sample, m.forward));
      }
    }
  }

  /** Placing a file adds a duplicate naming the kept file exactly when a file is kept. */
  lemma PlaceErrors(st: Pairing, id: string, forward: bool, path: string, kept: Option<string>)
    requires id in st.files ==> Slot(st.files[id], forward) == kept
    requires id !in st.files ==> kept.None?
    ensures Place(st, id, forward, path).errors
      == st.errors + match kept case None => [] case Some(k) => [Duplicate(forward, id, k, path)]
  {
  }

  /** Entry `k` is the new file a duplicate error names: matched to the error's sample and
      direction, after the file kept for them. */
  ghost predicate NewFileAt(entries: seq<Entry>, p: Pattern, e: MapError, k: nat)
  {
    e.Duplicate? && k < |entries| && entries[k].path == e.found
    && Match(entries[k], p) == Some(Matched(e.sample, e.forward))
    && FirstMatch(entries[..k], p, e.sample, e.forward) == Some(e.existing)
  }

  /** Every duplicate error names, as the new file, a file matched to its sample and direction
      after the kept one. */
  lemma {:induction false} LaterMatchesFound(entries: seq<Entry>, p: Pattern)
    ensures forall e :: e in LaterMatches(entries, p) ==> exists k :: NewFileAt(entries, p, e, k)
    decreases |entries|
  {
    if |entries| > 0 {
      var n := |entries| - 1;
      var prev := entries[..n];
      LaterMatchesFound(prev, p);
      forall e | e in LaterMatches(entries, p)
        ensures exists k :: NewFileAt(entries, p, e, k)
      {
        if e in LaterMatches(prev, p) {
          var k :| NewFileAt(prev, p, e, k);
          NewFileAtPrefix(entries, n, p, e, k);
        } else {
          NewFileAtLast(entries, p, e);
        }
      }
    }
  }

  lemma NewFileAtPrefix(entries: seq<Entry>, n: nat, p: Pattern, e: MapError, k: nat)
    requires n <= |entries| && NewFileAt(entries[..n], p, e, k)
    ensures NewFileAt(entries, p, e, k)
  {
    assert entries[..n][k] == entries[k] && entries[..n][..k] == entries[..k];
  }

  lemma NewFileAtLast(entries: seq<Entry>, p: Pattern, e: MapError)
    requires |entries| > 0
    requires e in LaterMatch(entries[..|entries| - 1], p, entries[|entries| - 1])
    ensures NewFileAt(entries, p, e, |entries| - 1)
  {
  }

  /** Each file matched after the first one of its sample and direction adds exactly one
      duplicate error. */
  lemma {:induction false} PairsCountsDuplicates(entries: seq<Entry>, p: Pattern, id: string, forward: bool)
    requires Pairs(entries, p).Ok?
    ensures DuplicateCount(Pairs(entries, p).value.errors, id, forward)
      == if MatchCount(entries, p, id, forward) == 0 then 0 else MatchCount(entries, p, id, forward) - 1
    decreases |entries|
  {
    if |entries| > 0 {
      var prev := entries[..|entries| - 1];
      var e := entries[|entries| - 1];
      PairsStep(entries, p);
      var st := Pairs(prev, p).value;
      var bump := Match(e, p) == Some(Matched(id, forward));
      var before := MatchCount(prev, p, id, forward);
      assert MatchCount(entries, p, id, forward) == before + (if bump then 1 else 0);
      assert DuplicateCount(Pairs(entries, p).value.errors, id, forward)
        == DuplicateCount(st.errors, id, forward) + (if bump && before > 0 then 1 else 0) by {
        if Match(e, p).Some? {
          var m := Match(e, p).value;
          PlaceDuplicates(st, m.sample, m.forward, e.path, id, forward);
          if bump {
            SlotTaken(prev, p, id, forward);
          }
        }
      }
      PairsCountsDuplicates(prev, p, id, forward);
    }
  }

  /** After a scan, the slot of `id` in direction `forward` is taken exactly when some file was
      matched to it. */
  lemma SlotTaken(entries: seq<Entry>, p: Pattern, id: string, forward: bool)
    requires Pairs(entries, p).Ok?
    ensures var st := Pairs(entries, p).value;
      (id in st.files && Slot(st.files[id], forward).Some?) <==> MatchCount(entries, p, id, forward) > 0
  {
    PairsKeepsFirst(entries, p);
    FirstMatchCount(entries, p, id, forward);
  }

  /** Placing a file adds a duplicate error for `id` and `forward` exactly when it is for that
      sample and direction and the slot is already taken. */
  lemma PlaceDuplicates(st: Pairing, sample: string, fwd: bool, path: string, id: string, forward: bool)
    ensures DuplicateCount(Place(st, sample, fwd, path).errors, id, forward)
      == DuplicateCount(st.errors, id, forward)
         + (if sample == id && fwd == forward && sample in st.files && Slot(st.files[sample], fwd).Some? then 1 else 0)
  {
    var f := if sample in st.files then st.files[sample] else NoFiles;
    match Slot(f, fwd)
    case Some(existing) =>
      DuplicateCountAppend(st.errors, Duplicate(fwd, sample, existing, path), id, forward);
    case None =>
  }

  /** `Sample {id} missing forward read file`, for each sample in insertion order. */
  function MissingForwards(order: seq<string>, files: map<string, Files>): (errors: seq<MapError>)
    ensures forall e :: e in errors ==> e.MissingForward?
    decreases |order|
  {
    if |order| == 0 then []
    else
      var id := order[|order| - 1];
      var missing := id in files && files[id].forward.None?;
      MissingForwards(order[..|order| - 1], files) + (if missing then [MissingForward(id)] else [])
  }

  /** A sample gets a missing-forward error exactly when it has no forward file, and at most one;
      a missing reverse file is no error. */
  lemma {:induction false} MissingForwardsExact(order: seq<string>, files: map<string, Files>, id: string)
    requires Distinct(order)
    ensures multiset(MissingForwards(order, files))[MissingForward(id)]
      == if id in order && id in files && files[id].forward.None? then 1 else 0
    decreases |order|
  {
    if |order| > 0 {
      var prev := order[..|order| - 1];
      MissingForwardsExact(prev, files, id);
      assert id in order <==> id in prev || id == order[|order| - 1];
      assert order[|order| - 1] !in prev;
    }
  }

  /** One line of the mapping: the id, then the forward and reverse paths or `''`. */
  function MappingRow(id: string, f: Files): seq<string>
  {
    [id, f.forward.GetOr(""), f.reverse.GetOr("")]
  }

  const MappingHeader := ["Sample ID", "Forward", "Reverse"]

  function Lookup(files: map<string, Files>, id: string): Files
  {
    if id in files then files[id] else NoFiles
  }

  /** `sorted(samples.items())`: keys are distinct, so only the ids are ever compared. */
  function SortedIds(order: seq<string>): seq<string>
  {
    Sorting.SortBy(order, (id: string) => id)
  }

  /** The rows `write_mapping` writes. */
  function MappingRows(order: seq<string>, files: map<string, Files>): seq<seq<string>>
  {
    var ids := SortedIds(order);
    [MappingHeader] + seq(|ids|, i requires 0 <= i < |ids| => MappingRow(ids[i], Lookup(files, ids[i])))
  }

  /** `write_mapping` as the loop it is. */
  method WriteMapping(order: seq<string>, files: map<string, Files>) returns (rows: seq<seq<string>>)
    requires forall id :: id in order ==> id in files
    ensures rows == MappingRows(order, files)
  {
    var ids := SortedIds(order);
    SortedIdsIn(order, files);
    ghost var all := MappingRows(order, files);
    rows := [MappingHeader];
    var i := 0;
    while i < |ids|
      invariant i <= |ids| && |all| == |ids| + 1
      invariant rows == all[..i + 1]
    {
      var f := files[ids[i]];
      MappingRowsAt(order, files, i);
      assert all[..i + 2] == all[..i + 1] + [all[i + 1]];
      rows := rows + [[ids[i], f.forward.GetOr(""), f.reverse.GetOr("")]];
      i := i + 1;
    }
    assert all[..i + 1] == all;
  }

  /** The mapping lists the header, then every sample exactly once, in ascending id order, each
      row with three cells: the forward and reverse paths, or `''` for a missing one. */
  lemma MappingRowsSpec(order: seq<string>, files: map<string, Files>)
    requires forall id :: id in order ==> id in files
    ensures var rows := MappingRows(order, files);
      |rows| == |order| + 1 && rows[0] == MappingHeader
      && (forall i :: 1 <= i < |rows| ==>
            |rows[i]| == 3 && rows[i][0] in files
            && rows[i][1] == files[rows[i][0]].forward.GetOr("") && rows[i][2] == files[rows[i][0]].reverse.GetOr(""))
      && (forall i, j :: 1 <= i < j < |rows| ==> Sorting.LexLe(rows[i][0], rows[j][0]))
      && multiset(seq(|rows| - 1, i requires 0 <= i < |rows| - 1 => rows[i + 1][0])) == multiset(order)
  {
    var ids := SortedIds(order);
    var rows := MappingRows(order, files);
    Sorting.SortBySorted(order, (id: string) => id);
    SortedIdsIn(order, files);
    forall i | 1 <= i < |rows|
      ensures |rows[i]| == 3 && rows[i][0] in files
        && rows[i][1] == files[rows[i][0]].forward.GetOr("") && rows[i][2] == files[rows[i][0]].reverse.GetOr("")
    {
      MappingRowsAt(order, files, i - 1);
    }
    forall i, j | 1 <= i < j < |rows| ensures Sorting.LexLe(rows[i][0], rows[j][0]) {
      MappingRowsAt(order, files, i - 1);
      MappingRowsAt(order, files, j - 1);
    }
    var firsts := seq(|rows| - 1, i requires 0 <= i < |rows| - 1 => rows[i + 1][0]);
    forall i | 0 <= i < |firsts| ensures firsts[i] == ids[i] {
      MappingRowsAt(order, files, i);
    }
    assert firsts == ids;
  }

  /** The sorted ids are the ids of the dict, each a key of it. */
  lemma SortedIdsIn(order: seq<string>, files: map<string, Files>)
    requires forall id :: id in order ==> id in files
    ensures |SortedIds(order)| == |order| && multiset(SortedIds(order)) == multiset(order)
    ensures forall i :: 0 <= i < |SortedIds(order)| ==> SortedIds(order)[i] in files
  {
    var ids := SortedIds(order);
    Sorting.SortByPermutes(order, (id: string) => id);
    forall i | 0 <= i < |ids| ensures ids[i] in files {
      assert ids[i] in multiset(ids);
    }
  }

  lemma MappingRowsAt(order: seq<string>, files: map<string, Files>, i: nat)
    requires i < |SortedIds(order)|
    ensures |MappingRows(order, files)| == |SortedIds(order)| + 1 && MappingRows(order, files)[0] == MappingHeader
    ensures MappingRows(order, files)[i + 1] == MappingRow(SortedIds(order)[i], Lookup(files, SortedIds(order)[i]))
  {
  }

  /** How `cli` ends. */
  datatype Failure =
    | Raised(error: ClassifyError)
    | Reported(errors: seq<MapError>)
    | NoSamples

  /** `cli` after the walk: scan, check each sample for a forward file, then report every error
      at once, or report that nothing matched, or write the mapping. */
  method MakeMapping(entries: seq<Entry>, p: Pattern) returns (r: Result<seq<seq<string>>, Failure>)
    ensures Pairs(entries, p).Err? <==> r.Err? && r.error.Raised?
    ensures Pairs(entries, p).Ok? ==>
      var st := Pairs(entries, p).value;
      var errors := st.errors + MissingForwards(st.order, st.files);
      (errors != [] ==> r == Err(Reported(errors)))
      && (errors == [] && st.order == [] ==> r == Err(NoSamples))
      && (errors == [] && st.order != [] ==> r == Ok(MappingRows(st.order, st.files)))
  {
    var scanned := Scan(entries, p);
    if scanned.Err? {
      return Err(Raised(scanned.error));
    }
    var st := scanned.value;
    PairsWellFormed(entries, p);
    var errors := st.errors;
    var i := 0;
    while i < |st.order|
      invariant i <= |st.order|
      invariant errors == st.errors + MissingForwards(st.order[..i], st.files)
    {
      var id := st.order[i];
      assert st.order[..i + 1][..i] == st.order[..i];
      assert st.order[..i + 1][i] == id;
      if st.files[id].forward.None? {
        errors := errors + [MissingForward(id)];
      }
      i := i + 1;
    }
    assert st.order[..i] == st.order;
    if errors != [] {
      return Err(Reported(errors));
    }
    if st.order == [] {
      return Err(NoSamples);
    }
    var rows := WriteMapping(st.order, st.files);
    return Ok(rows);
  }
}
