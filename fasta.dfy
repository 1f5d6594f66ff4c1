/** `parse_fasta` (qimba/utils.py): a line-driven reader of FASTA records.
    The file is given as its lines; the generator's yields are collected into a sequence. */
module Fasta {
  import opened Wrappers
  import opened Text

  /** One yielded tuple `(sequence_id, comments, sequence)`. */
  datatype Record = Record(id: string, comment: string, sequence: string)

  /** The records yielded, and the index of the line where `header[0]` raised `IndexError`, if one did. */
  datatype Parsed = Parsed(records: seq<Record>, failedAt: Option<nat>)

  datatype Header = Header(id: string, comment: string)

  /** `line[1:].split(maxsplit=1)` of a header line, given the text after the `>`: the id is the
      first word and the comment the rest, or `''`. After a stripped `>`, that text is empty or
      ends in a non-space, and then it has a first word. */
  function HeaderOf(rest: string): (h: Header)
    ensures |rest| > 0 && !IsSpace(rest[|rest| - 1]) ==> h.id != "" && NoSpace(h.id)
  {
    var parts := SplitFirstWord(rest);
    if |rest| > 0 && !IsSpace(rest[|rest| - 1]) then
      assert LStrip(rest) != [];
      Header(parts[0], if |parts| == 2 then parts[1] else "")
    else
      Header(if |parts| > 0 then parts[0] else "", if |parts| == 2 then parts[1] else "")
  }

  /** A header text made of a word, a space and a comment that starts with a non-space splits
      back into that word and that comment. */
  lemma HeaderOfWords(id: string, comment: string)
    requires id != "" && NoSpace(id)
    requires comment != "" && !IsSpace(comment[0])
    ensures HeaderOf(id + " " + comment) == Header(id, comment)
  {
    SplitFirstWordPair(id, comment);
  }

  /** After a stripped `>`, `header[0]` fails exactly when nothing follows. */
  lemma BareHeader(line: string)
    requires |line| > 0 && line[0] == '>' && Trimmed(line)
    ensures SplitFirstWord(line[1..]) == [] <==> line[1..] == ""
  {
    var rest := line[1..];
    if rest != "" {
      assert !IsSpace(rest[|rest| - 1]);
      assert LStrip(rest) != [];
    }
  }

  /** How the loop body treats one line: blank lines are skipped, a header line (given by the text
      after its `>`) starts a record, anything else is a stripped piece of the current sequence. */
  datatype Line = Blank | Head(rest: string) | Piece(text: string)

  predicate IsHeaderLine(line: string)
  {
    var t := Strip(line);
    |t| > 0 && t[0] == '>'
  }

  function Classify(line: string): (k: Line)
    ensures k.Blank? <==> Strip(line) == ""
    ensures k.Head? <==> IsHeaderLine(line)
    ensures k.Head? ==> k.rest == Strip(line)[1..]
    ensures k.Piece? ==> k.text == Strip(line)
  {
    var t := Strip(line);
    if t == "" then Blank else if t[0] == '>' then Head(t[1..]) else Piece(t)
  }

  /** Each line of the file as the loop body sees it. */
  function Kinds(lines: seq<string>): (ks: seq<Line>)
    ensures |ks| == |lines|
  {
    seq(|lines|, i requires 0 <= i < |lines| => Classify(lines[i]))
  }

  lemma KindsAt(lines: seq<string>, i: nat)
    requires i < |lines|
    ensures Kinds(lines)[i] == Classify(lines[i])
  {
  }

  lemma KindsAppend(xs: seq<string>, ys: seq<string>)
    ensures Kinds(xs + ys) == Kinds(xs) + Kinds(ys)
  {
    forall k | 0 <= k < |xs| + |ys| ensures Kinds(xs + ys)[k] == (Kinds(xs) + Kinds(ys))[k] {
      KindsAt(xs + ys, k);
      if k < |xs| {
        KindsAt(xs, k);
      } else {
        KindsAt(ys, k - |xs|);
      }
    }
  }

  lemma KindsTail(lines: seq<string>)
    requires |lines| > 0
    ensures Kinds(lines)[0] == Classify(lines[0]) && Kinds(lines)[1..] == Kinds(lines[1..])
  {
    KindsSlice(lines, 1, |lines|);
    assert lines[1..|lines|] == lines[1..];
  }

  lemma KindsPrefix(lines: seq<string>, k: nat)
    requires k <= |lines|
    ensures Kinds(lines[..k]) == Kinds(lines)[..k]
  {
    KindsSlice(lines, 0, k);
    assert lines[0..k] == lines[..k];
    assert Kinds(lines)[0..k] == Kinds(lines)[..k];
  }

  lemma KindsSlice(lines: seq<string>, i: nat, j: nat)
    requires i <= j <= |lines|
    ensures Kinds(lines[i..j]) == Kinds(lines)[i..j]
  {
    var a := Kinds(lines[i..j]);
    var b := Kinds(lines)[i..j];
    assert |a| == |b| == j - i;
    forall k | 0 <= k < j - i ensures a[k] == b[k] {
      assert lines[i..j][k] == lines[i + k];
      KindsAt(lines[i..j], k);
      KindsAt(lines, i + k);
    }
    assert a == b;
  }

  /** A record before its header is split: the text after `>` and the sequence pieces. */
  datatype Raw = Raw(header: string, chunks: seq<string>)

  function RecordOf(r: Raw): Record
  {
    var h := HeaderOf(r.header);
    Record(h.id, h.comment, Join("", r.chunks))
  }

  function Records(raws: seq<Raw>): (rs: seq<Record>)
    ensures |rs| == |raws|
  {
    seq(|raws|, i requires 0 <= i < |raws| => RecordOf(raws[i]))
  }

  lemma RecordsAt(raws: seq<Raw>, i: nat)
    requires i < |raws|
    ensures Records(raws)[i] == RecordOf(raws[i])
  {
  }

  lemma RecordsAppend(a: seq<Raw>, b: seq<Raw>)
    ensures Records(a + b) == Records(a) + Records(b)
  {
    var l := Records(a + b);
    var r := Records(a) + Records(b);
    assert |l| == |r|;
    forall k | 0 <= k < |l| ensures l[k] == r[k] {
      RecordsAt(a + b, k);
      if k < |a| {
        assert (a + b)[k] == a[k];
        RecordsAt(a, k);
      } else {
        assert (a + b)[k] == b[k - |a|];
        RecordsAt(b, k - |a|);
      }
    }
    assert l == r;
  }

  lemma RecordsOne(r: Raw)
    ensures Records([r]) == [RecordOf(r)]
  {
    assert Records([r])[0] == RecordOf(r);
  }

  /** The generator's locals: the current header (absent before the first one), `current_sequence`,
      and what has been yielded so far. */
  datatype State = State(current: Option<string>, chunks: seq<string>, done: seq<Raw>)

  datatype Fed = Running(state: State) | Failed(yielded: seq<Raw>, at: nat)

  const Init := State(None, [], [])

  /** What has been yielded once the current record is yielded too: nothing before the first header. */
  function Flush(s: State): seq<Raw>
  {
    s.done + (if s.current.Some? then [Raw(s.current.value, s.chunks)] else [])
  }

  /** The generator's locals after the loop body has handled a line that does not fail. */
  function Next(s: State, k: Line): State
  {
    match k
    case Blank => s
    case Head(h) => State(Some(h), [], Flush(s))
    case Piece(t) => s.(chunks := s.chunks + [t])
  }

  /** Runs the loop body over the classified lines; `at` is the index of `ks[0]` in the file.
      A header line with nothing after its `>` is where `header[0]` fails. */
  function Feed(s: State, ks: seq<Line>, at: nat): Fed
    decreases |ks|
  {
    if |ks| == 0 then Running(s)
    else if ks[0] == Head("") then Failed(Flush(s), at)
    else Feed(Next(s, ks[0]), ks[1..], at + 1)
  }

  /** Everything yielded, once the generator is exhausted or has failed. */
  function Yielded(f: Fed): seq<Raw>
  {
    match f
    case Running(s) => Flush(s)
    case Failed(raws, _) => raws
  }

  function Finish(f: Fed): Parsed
  {
    Parsed(Records(Yielded(f)), if f.Failed? then Some(f.at) else None)
  }

  /** Everything the generator yields for a file. */
  function Parse(lines: seq<string>): Parsed
  {
    Finish(Feed(Init, Kinds(lines), 0))
  }

  /** `parse_fasta` as the loop it is. */
  method ParseFasta(lines: seq<string>) returns (p: Parsed)
    ensures p == Parse(lines)
  {
    var current: Option<Header> := None;
    var sequence: seq<string> := [];
    var records: seq<Record> := [];
    ghost var ks := Kinds(lines);
    ghost var st := Init;
    var i := 0;
    while i < |lines|
      invariant i <= |lines|
      invariant Feed(Init, ks, 0) == Feed(st, ks[i..], i)
      invariant records == Records(st.done) && sequence == st.chunks
      invariant current.Some? <==> st.current.Some?
      invariant current.Some? ==> current.value == HeaderOf(st.current.value)
    {
      var line := Strip(lines[i]);
      LineKind(lines, i, line);
      FeedStep(st, ks, i);
      if line != "" {
        if line[0] == '>' {
          records := YieldCurrent(st, current, sequence, records);
          var header := ReadHeader(line);
          if header.None? {
            return Parsed(records, Some(i));
          }
          current := header;
          sequence := [];
        } else {
          sequence := sequence + [line];
        }
      }
      st := Next(st, ks[i]);
      i := i + 1;
    }
    records := YieldCurrent(st, current, sequence, records);
    assert Feed(st, ks[i..], i) == Running(st);
    return Parsed(records, None);
  }

  /** The loop body's view of line `i`, given its stripped text. */
  lemma LineKind(lines: seq<string>, i: nat, line: string)
    requires i < |lines| && line == Strip(lines[i])
    ensures Kinds(lines)[i] == (if line == "" then Blank else if line[0] == '>' then Head(line[1..]) else Piece(line))
    ensures Trimmed(line)
  {
    KindsAt(lines, i);
    StripTrimmed(lines[i]);
  }

  /** One turn of the loop: a bare `>` fails on that line, anything else moves the state on. */
  lemma FeedStep(s: State, ks: seq<Line>, i: nat)
    requires i < |ks|
    ensures Feed(s, ks[i..], i) ==
      if ks[i] == Head("") then Failed(Flush(s), i) else Feed(Next(s, ks[i]), ks[i + 1..], i + 1)
  {
    assert ks[i..][0] == ks[i];
    assert ks[i..][1..] == ks[i + 1..];
  }

  /** The `yield` of the record in progress, when a header has been seen. */
  method YieldCurrent(ghost st: State, current: Option<Header>, sequence: seq<string>, records: seq<Record>)
    returns (out: seq<Record>)
    requires records == Records(st.done) && sequence == st.chunks
    requires current.Some? <==> st.current.Some?
    requires current.Some? ==> current.value == HeaderOf(st.current.value)
    ensures out == Records(Flush(st))
  {
    if current.Some? {
      RecordsAppend(st.done, [Raw(st.current.value, st.chunks)]);
      RecordsOne(Raw(st.current.value, st.chunks));
      out := records + [Record(current.value.id, current.value.comment, Join("", sequence))];
    } else {
      assert Flush(st) == st.done + [] == st.done;
      out := records;
    }
  }

  /** `line[1:].split(maxsplit=1)` and `header[0]` on a stripped header line: absent exactly when
      nothing follows the `>`, where `header[0]` raises `IndexError`. */
  method ReadHeader(line: string) returns (h: Option<Header>)
    requires |line| > 0 && line[0] == '>' && Trimmed(line)
    ensures h.None? <==> line[1..] == ""
    ensures h.Some? ==> h.value == HeaderOf(line[1..])
  {
    var rest := line[1..];
    BareHeader(line);
    var header := SplitFirstWord(rest);
    if |header| == 0 {
      return None;
    }
    HeaderOfParts(rest);
    return Some(Header(header[0], if |header| == 2 then header[1] else ""));
  }

  /** Whenever the header text has a first word, `HeaderOf` is that word and the rest. */
  lemma HeaderOfParts(rest: string)
    requires SplitFirstWord(rest) != []
    ensures var parts := SplitFirstWord(rest);
      HeaderOf(rest) == Header(parts[0], if |parts| == 2 then parts[1] else "")
  {
  }

  /** The stripped, non-blank lines of a stretch: the pieces of a sequence. */
  function Body(lines: seq<string>): seq<string>
    decreases |lines|
  {
    if |lines| == 0 then []
    else if Strip(lines[0]) == "" then Body(lines[1..])
    else [Strip(lines[0])] + Body(lines[1..])
  }

  predicate NoHeaders(lines: seq<string>)
  {
    forall i :: 0 <= i < |lines| ==> !IsHeaderLine(lines[i])
  }

  function HeaderCount(lines: seq<string>): nat
    decreases |lines|
  {
    if |lines| == 0 then 0 else (if IsHeaderLine(lines[0]) then 1 else 0) + HeaderCount(lines[1..])
  }

  function Pieces(ks: seq<Line>): seq<string>
    decreases |ks|
  {
    if |ks| == 0 then [] else (if ks[0].Piece? then [ks[0].text] else []) + Pieces(ks[1..])
  }

  function Heads(ks: seq<Line>): nat
    decreases |ks|
  {
    if |ks| == 0 then 0 else (if ks[0].Head? then 1 else 0) + Heads(ks[1..])
  }

  lemma {:induction false} PiecesBody(lines: seq<string>)
    requires NoHeaders(lines)
    ensures Pieces(Kinds(lines)) == Body(lines)
    decreases |lines|
  {
    if |lines| > 0 {
      var ks := Kinds(lines);
      KindsTail(lines);
      assert !IsHeaderLine(lines[0]);
      PiecesBody(lines[1..]);
      if Strip(lines[0]) == "" {
        assert ks[0] == Blank;
      } else {
        assert ks[0] == Piece(Strip(lines[0]));
      }
    }
  }

  lemma {:induction false} HeadsCount(lines: seq<string>)
    ensures Heads(Kinds(lines)) == HeaderCount(lines)
    decreases |lines|
  {
    if |lines| > 0 {
      KindsTail(lines);
      HeadsCount(lines[1..]);
    }
  }

  /** Feeding two stretches is feeding the first, then the second from where the first stopped. */
  lemma {:induction false} FeedAppend(s: State, xs: seq<Line>, ys: seq<Line>, at: nat)
    ensures Feed(s, xs + ys, at) ==
      match Feed(s, xs, at)
      case Running(t) => Feed(t, ys, at + |xs|)
      case Failed(rs, k) => Failed(rs, k)
    decreases |xs|
  {
    if |xs| > 0 {
      assert (xs + ys)[0] == xs[0];
      assert (xs + ys)[1..] == xs[1..] + ys;
      if xs[0] != Head("") {
        FeedAppend(Next(s, xs[0]), xs[1..], ys, at + 1);
      }
    } else {
      assert xs + ys == ys;
    }
  }

  /** Lines without a header only add their pieces to the current sequence. */
  lemma {:induction false} FeedBody(s: State, ks: seq<Line>, at: nat)
    requires forall i :: 0 <= i < |ks| ==> !ks[i].Head?
    ensures Feed(s, ks, at) == Running(s.(chunks := s.chunks + Pieces(ks)))
    decreases |ks|
  {
    if |ks| > 0 {
      FeedBody(Next(s, ks[0]), ks[1..], at + 1);
      if ks[0].Piece? {
        assert s.chunks + [ks[0].text] + Pieces(ks[1..]) == s.chunks + Pieces(ks);
      }
    } else {
      assert s.chunks + [] == s.chunks;
    }
  }

  /** Without a failing header, one record is yielded per header line. */
  lemma {:induction false} FeedCounts(s: State, ks: seq<Line>, at: nat)
    requires Feed(s, ks, at).Running?
    ensures |Flush(Feed(s, ks, at).state)| == |Flush(s)| + Heads(ks)
    decreases |ks|
  {
    if |ks| > 0 {
      FeedCounts(Next(s, ks[0]), ks[1..], at + 1);
    }
  }

  /** A file that parses without failure yields exactly one record per header line. */
  lemma ParseCount(lines: seq<string>)
    requires Parse(lines).failedAt.None?
    ensures |Parse(lines).records| == HeaderCount(lines)
  {
    FeedCounts(Init, Kinds(lines), 0);
    HeadsCount(lines);
  }

  /** A header followed by lines without headers yields one record: the header's id and comment,
      and the concatenation of the stripped non-blank lines. */
  lemma ParseOneRecord(header: string, body: seq<string>)
    requires IsHeaderLine(header) && Strip(header) != ">"
    requires NoHeaders(body)
    ensures Parse([header] + body) == Parsed([RecordOf(Raw(Strip(header)[1..], Body(body)))], None)
  {
    var rest := Strip(header)[1..];
    assert Strip(header) == [Strip(header)[0]] + rest;
    var kb := Kinds(body);
    KindsAppend([header], body);
    KindsAt([header], 0);
    assert Kinds([header]) == [Head(rest)];
    forall i | 0 <= i < |kb| ensures !kb[i].Head? {
      KindsAt(body, i);
    }
    FinishOne(rest, kb);
    PiecesBody(body);
  }

  lemma FinishOne(rest: string, kb: seq<Line>)
    requires rest != ""
    requires forall i :: 0 <= i < |kb| ==> !kb[i].Head?
    ensures Finish(Feed(Init, [Head(rest)] + kb, 0)) == Parsed([RecordOf(Raw(rest, Pieces(kb)))], None)
  {
    var ks := [Head(rest)] + kb;
    var s := State(Some(rest), [], []);
    assert ks[0] == Head(rest) && ks[1..] == kb;
    assert Flush(Init) == [];
    assert Next(Init, Head(rest)) == s;
    assert Feed(Init, ks, 0) == Feed(s, kb, 1);
    FeedBody(s, kb, 1);
    assert [] + Pieces(kb) == Pieces(kb);
    var t := State(Some(rest), Pieces(kb), []);
    assert Feed(Init, ks, 0) == Running(t);
    assert Flush(t) == [Raw(rest, Pieces(kb))];
    RecordsOne(Raw(rest, Pieces(kb)));
  }

  /** The record of a header line: its id is a non-empty word, its sequence the concatenated pieces. */
  lemma RecordShape(rest: string, pieces: seq<string>)
    requires |rest| > 0 && !IsSpace(rest[|rest| - 1])
    ensures RecordOf(Raw(rest, pieces)).id != "" && NoSpace(RecordOf(Raw(rest, pieces)).id)
    ensures RecordOf(Raw(rest, pieces)).sequence == Join("", pieces)
  {
  }

  /** Appending to what was already yielded. */
  function Prepend(d: seq<Raw>, f: Fed): Fed
  {
    match f
    case Running(t) => Running(t.(done := d + t.done))
    case Failed(rs, k) => Failed(d + rs, k)
  }

  function Shift(f: Fed, n: nat): Fed
  {
    match f
    case Running(t) => Running(t)
    case Failed(rs, k) => Failed(rs, k + n)
  }

  /** The starting index only numbers the failing line. */
  lemma {:induction false} FeedAt(s: State, ks: seq<Line>, at: nat, n: nat)
    ensures Feed(s, ks, at + n) == Shift(Feed(s, ks, at), n)
    decreases |ks|
  {
    if |ks| > 0 && ks[0] != Head("") {
      FeedAt(Next(s, ks[0]), ks[1..], at + 1, n);
    }
  }

  /** Records already yielded stay in front of everything yielded later. */
  lemma {:induction false} FeedDone(c: Option<string>, ch: seq<string>, d: seq<Raw>, dn: seq<Raw>, ks: seq<Line>, at: nat)
    ensures Feed(State(c, ch, d + dn), ks, at) == Prepend(d, Feed(State(c, ch, dn), ks, at))
    decreases |ks|
  {
    var s := State(c, ch, dn);
    assert Flush(State(c, ch, d + dn)) == d + Flush(s);
    if |ks| > 0 && ks[0] != Head("") {
      match ks[0]
      case Blank => FeedDone(c, ch, d, dn, ks[1..], at + 1);
      case Head(h) => FeedDone(Some(h), [], d, Flush(s), ks[1..], at + 1);
      case Piece(t) => FeedDone(c, ch + [t], d, dn, ks[1..], at + 1);
    }
  }

  /** From a header line on, what came before contributes only the records it completed. */
  lemma FeedFromHeader(s: State, ks: seq<Line>, at: nat)
    requires |ks| > 0 && ks[0].Head?
    ensures Feed(s, ks, at) == Prepend(Flush(s), Feed(Init, ks, at))
  {
    assert Flush(s) + [] == Flush(s);
    assert Flush(Init) == [];
    if ks[0] != Head("") {
      assert Next(s, ks[0]) == State(Some(ks[0].rest), [], Flush(s) + []);
      assert Next(Init, ks[0]) == State(Some(ks[0].rest), [], []);
      FeedDone(Some(ks[0].rest), [], Flush(s), [], ks[1..], at + 1);
    }
  }

  /** Lines before the first header are discarded. */
  lemma ParseSkipsPreamble(pre: seq<string>, rest: seq<string>)
    requires NoHeaders(pre)
    requires rest == [] || IsHeaderLine(rest[0])
    ensures Parse(pre + rest).records == Parse(rest).records
  {
    var ps := Kinds(pre);
    KindsAppend(pre, rest);
    forall i | 0 <= i < |ps| ensures !ps[i].Head? {
      KindsAt(pre, i);
    }
    if rest != [] {
      KindsAt(rest, 0);
    }
    FinishSkips(ps, Kinds(rest));
  }

  lemma FinishSkips(ps: seq<Line>, rs: seq<Line>)
    requires forall i :: 0 <= i < |ps| ==> !ps[i].Head?
    requires rs == [] || rs[0].Head?
    ensures Finish(Feed(Init, ps + rs, 0)).records == Finish(Feed(Init, rs, 0)).records
  {
    var s := Init.(chunks := Pieces(ps));
    FeedBody(Init, ps, 0);
    assert [] + Pieces(ps) == Pieces(ps);
    assert Feed(Init, ps, 0) == Running(s);
    FeedAppend(Init, ps, rs, 0);
    assert Feed(Init, ps + rs, 0) == Feed(s, rs, |ps|);
    assert Flush(s) == [] == Flush(Init);
    var f := Feed(Init, rs, 0);
    if rs == [] {
      assert Feed(s, rs, |ps|) == Running(s);
      assert f == Running(Init);
      assert Yielded(Feed(Init, ps + rs, 0)) == [] == Yielded(f);
    } else {
      FeedFromHeader(s, rs, |ps|);
      FeedAt(Init, rs, 0, |ps|);
      assert Feed(Init, ps + rs, 0) == Prepend([], Shift(f, |ps|));
      YieldedShifted([], f, |ps|);
      assert [] + Yielded(f) == Yielded(f);
      assert Yielded(Feed(Init, ps + rs, 0)) == Yielded(f);
    }
  }

  /** What a renumbered run yields after `d` is `d` followed by what the run yields. */
  lemma YieldedShifted(d: seq<Raw>, f: Fed, n: nat)
    ensures Yielded(Prepend(d, Shift(f, n))) == d + Yielded(f)
    ensures Prepend(d, Shift(f, n)).Running? <==> f.Running?
  {
    match f
    case Running(u) =>
      assert Flush(u.(done := d + u.done)) == d + Flush(u);
    case Failed(rs, k) =>
  }

  /** Records of consecutive stretches, the second starting at a header, are concatenated. */
  lemma ParseConcat(xs: seq<string>, ys: seq<string>)
    requires |ys| > 0 && IsHeaderLine(ys[0])
    requires Parse(xs).failedAt.None?
    ensures Parse(xs + ys).records == Parse(xs).records + Parse(ys).records
    ensures Parse(xs + ys).failedAt.None? <==> Parse(ys).failedAt.None?
  {
    KindsAppend(xs, ys);
    KindsAt(ys, 0);
    FinishConcat(Kinds(xs), Kinds(ys));
  }

  lemma FinishConcat(xk: seq<Line>, yk: seq<Line>)
    requires |yk| > 0 && yk[0].Head?
    requires Feed(Init, xk, 0).Running?
    ensures Finish(Feed(Init, xk + yk, 0)).records
      == Finish(Feed(Init, xk, 0)).records + Finish(Feed(Init, yk, 0)).records
    ensures Feed(Init, xk + yk, 0).Running? <==> Feed(Init, yk, 0).Running?
  {
    YieldedConcat(xk, yk);
    RecordsAppend(Yielded(Feed(Init, xk, 0)), Yielded(Feed(Init, yk, 0)));
  }

  lemma YieldedConcat(xk: seq<Line>, yk: seq<Line>)
    requires |yk| > 0 && yk[0].Head?
    requires Feed(Init, xk, 0).Running?
    ensures Yielded(Feed(Init, xk + yk, 0)) == Yielded(Feed(Init, xk, 0)) + Yielded(Feed(Init, yk, 0))
    ensures Feed(Init, xk + yk, 0).Running? <==> Feed(Init, yk, 0).Running?
  {
    FeedAppend(Init, xk, yk, 0);
    var t := Feed(Init, xk, 0).state;
    FeedFromHeader(t, yk, |xk|);
    FeedAt(Init, yk, 0, |xk|);
    YieldedShifted(Flush(t), Feed(Init, yk, 0), |xk|);
  }

  /** A failing header line stops the generator: what was yielded is what the lines before it
      yield, and no later line is read. */
  lemma {:induction false} FeedFails(s: State, ks: seq<Line>, at: nat)
    requires Feed(s, ks, at).Failed?
    ensures var k := Feed(s, ks, at).at;
      at <= k < at + |ks| && ks[k - at] == Head("")
      && Feed(s, ks[..k - at], at).Running?
      && Yielded(Feed(s, ks, at)) == Yielded(Feed(s, ks[..k - at], at))
    decreases |ks|
  {
    var k := Feed(s, ks, at).at;
    if ks[0] == Head("") {
      assert ks[..0] == [];
    } else {
      FeedFails(Next(s, ks[0]), ks[1..], at + 1);
      assert ks[..k - at][1..] == ks[1..][..k - at - 1];
    }
  }

  /** The point where the fold stops, with the kinds before it fed without failure. */
  lemma FailsAt(ks: seq<Line>) returns (k: nat)
    requires Feed(Init, ks, 0).Failed?
    ensures k == Feed(Init, ks, 0).at && k < |ks| && ks[k] == Head("")
    ensures Feed(Init, ks[..k], 0).Running?
    ensures Yielded(Feed(Init, ks, 0)) == Yielded(Feed(Init, ks[..k], 0))
  {
    FeedFails(Init, ks, 0);
    k := Feed(Init, ks, 0).at;
  }

  /** `parse_fasta` on a file with a bare `>` line: `IndexError` at that line, after yielding
      exactly the records the lines before it yield, and those lines parse without failure. */
  lemma ParseFailure(lines: seq<string>)
    requires Parse(lines).failedAt.Some?
    ensures var k := Parse(lines).failedAt.value;
      k < |lines| && Strip(lines[k]) == ">"
      && Parse(lines[..k]).failedAt.None? && Parse(lines).records == Parse(lines[..k]).records
  {
    var ks := Kinds(lines);
    var k := FailsAt(ks);
    KindsPrefix(lines, k);
    KindsAt(lines, k);
    BareLine(lines[k]);
  }

  lemma BareLine(line: string)
    requires Classify(line) == Head("")
    ensures Strip(line) == ">"
  {
    var t := Strip(line);
    assert |t| > 0 && t[1..] == "";
    assert t == [t[0]] + t[1..];
  }

}
