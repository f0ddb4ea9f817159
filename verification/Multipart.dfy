/** Reading a multipart form: a cursor runs over the body from delimiter to
    delimiter. How a header block names its field and file, and how a field's bytes
    become text, are parameters. */
module Multipart {
  import opened Wrappers

  newtype Byte = b: int | 0 <= b < 256
  type Bytes = seq<Byte>

  const CR: Byte := 13
  const LF: Byte := 10
  const DASH: Byte := 45
  const CRLF: Bytes := [CR, LF]
  const BLANK: Bytes := [CR, LF, CR, LF]

  datatype Names = Names(field: string, file: string)
  datatype File = File(field: string, name: string, content: Bytes)
  datatype Form = Form(fields: map<string, string>, files: seq<File>)
  datatype Part = Part(headers: Bytes, content: Bytes)

  /** Buffer.indexOf. */
  function Find(s: Bytes, d: Bytes): (r: Option<nat>)
    ensures r.Some? ==> r.value + |d| <= |s|
    decreases |s|
  {
    if d <= s then Some(0)
    else if s == [] then None
    else match Find(s[1..], d)
      case None => None
      case Some(n) => Some(n + 1)
  }

  /** Find is the first place where d stands. */
  lemma {:induction false} FindFirst(s: Bytes, d: Bytes)
    ensures match Find(s, d)
      case Some(n) => s[n..n + |d|] == d && forall k :: 0 <= k < n ==> !(d <= s[k..])
      case None => forall k :: 0 <= k <= |s| ==> !(d <= s[k..])
    decreases |s|
  {
    if !(d <= s) && s != [] {
      FindFirst(s[1..], d);
      assert forall k :: 0 < k <= |s| ==> s[k..] == s[1..][k - 1..];
    }
  }

  predicate StartsDashed(s: Bytes) { |s| >= 2 && s[0] == DASH && s[1] == DASH }
  predicate StartsCrlf(s: Bytes) { |s| >= 2 && s[0] == CR && s[1] == LF }

  function SkipCrlf(s: Bytes): Bytes { if StartsCrlf(s) then s[2..] else s }

  function DropCrlf(s: Bytes): Bytes {
    if |s| >= 2 && s[|s| - 2] == CR && s[|s| - 1] == LF then s[..|s| - 2] else s
  }

  /** The slices between delimiters, from just behind one on. */
  function SlicesAfter(rest: Bytes, d: Bytes): seq<Bytes>
    requires d != []
    decreases |rest|
  {
    if StartsDashed(rest) then []
    else
      var r := SkipCrlf(rest);
      match Find(r, d)
      case None => []
      case Some(n) => [DropCrlf(r[..n])] + SlicesAfter(r[n + |d|..], d)
  }

  function Slices(body: Bytes, d: Bytes): seq<Bytes>
    requires d != []
  {
    match Find(body, d)
    case None => []
    case Some(n) => SlicesAfter(body[n + |d|..], d)
  }

  /** What a slice adds to the form. */
  function AddSlice(form: Form, slice: Bytes, namesOf: Bytes -> Names, textOf: Bytes -> string): Form {
    match Find(slice, BLANK)
    case None => form
    case Some(n) =>
      if n == 0 then form
      else
        var names, content := namesOf(slice[..n]), slice[n + 4..];
        if names.field != "" && names.file != "" then
          form.(files := form.files + [File(names.field, names.file, content)])
        else if names.field != "" then form.(fields := form.fields[names.field := textOf(content)])
        else form
  }

  function FormOf(slices: seq<Bytes>, namesOf: Bytes -> Names, textOf: Bytes -> string): Form {
    if slices == [] then Form(map[], [])
    else AddSlice(FormOf(slices[..|slices| - 1], namesOf, textOf), slices[|slices| - 1], namesOf, textOf)
  }

  lemma FormMore(done: seq<Bytes>, slice: Bytes, namesOf: Bytes -> Names, textOf: Bytes -> string)
    ensures FormOf(done + [slice], namesOf, textOf) == AddSlice(FormOf(done, namesOf, textOf), slice, namesOf, textOf)
  {
    assert (done + [slice])[..|done|] == done;
  }

  /** Reads one slice into the form. */
  method ReadSlice(form: Form, part: Bytes, namesOf: Bytes -> Names, textOf: Bytes -> string) returns (r: Form)
    ensures r == AddSlice(form, part, namesOf, textOf)
  {
    r := form;
    var headerEnd := Find(part, BLANK);
    if headerEnd.Some? && headerEnd.value > 0 {
      var names, content := namesOf(part[..headerEnd.value]), part[headerEnd.value + 4..];
      if names.field != "" && names.file != "" {
        r := form.(files := form.files + [File(names.field, names.file, content)]);
      } else if names.field != "" {
        r := form.(fields := form.fields[names.field := textOf(content)]);
      }
    }
  }

  /** From one delimiter to the next: the slice between them, or none to be read. */
  method NextSlice(body: Bytes, d: Bytes, at: nat) returns (part: Option<Bytes>, next: nat)
    requires d != [] && at + |d| <= |body|
    ensures var slices := SlicesAfter(body[at + |d|..], d);
      if part.None? then slices == []
      else at < next && next + |d| <= |body| && slices == [part.value] + SlicesAfter(body[next + |d|..], d)
  {
    hide Find, SlicesAfter, StartsDashed, SkipCrlf, DropCrlf;
    var cursor := at + |d|;
    ghost var rest := body[cursor..];
    SliceNext(rest, d);
    StartsAt(body, cursor);
    if cursor + 1 < |body| && body[cursor] == DASH && body[cursor + 1] == DASH {
      return None, 0;
    }
    if cursor + 1 < |body| && body[cursor] == CR && body[cursor + 1] == LF {
      cursor := cursor + 2;
    }
    ghost var r := SkipCrlf(rest);
    assert body[cursor..] == r;
    var found := Find(body[cursor..], d);
    if found.None? {
      return None, 0;
    }
    next := cursor + found.value;
    assert r[found.value + |d|..] == body[next + |d|..];
    var slice := body[cursor..next];
    assert r[..found.value] == slice;
    part := Some(DropCrlf(slice));
  }

  lemma StartsAt(body: Bytes, cursor: nat)
    requires cursor <= |body|
    ensures StartsDashed(body[cursor..])
      <==> cursor + 1 < |body| && body[cursor] == DASH && body[cursor + 1] == DASH
    ensures SkipCrlf(body[cursor..])
      == if cursor + 1 < |body| && body[cursor] == CR && body[cursor + 1] == LF then body[cursor + 2..]
        else body[cursor..]
  {
  }

  /** readMultipartForm, once the body is read. */
  method ReadMultipartForm(body: Bytes, d: Bytes, namesOf: Bytes -> Names, textOf: Bytes -> string) returns (form: Form)
    requires d != []
    ensures form == FormOf(Slices(body, d), namesOf, textOf)
  {
    hide FormOf, AddSlice, Find, SlicesAfter;
    form := Form(map[], []);
    NoSlices(namesOf, textOf);
    ghost var done := [];
    var found := Find(body, d);
    if found.None? { return; }
    var cursor := found.value;
    while true
      invariant cursor + |d| <= |body|
      invariant form == FormOf(done, namesOf, textOf)
      invariant Slices(body, d) == done + SlicesAfter(body[cursor + |d|..], d)
      decreases |body| - cursor
    {
      var part, next := NextSlice(body, d, cursor);
      if part.None? {
        assert Slices(body, d) == done;
        break;
      }
      Regroup(done, part.value, SlicesAfter(body[next + |d|..], d));
      FormMore(done, part.value, namesOf, textOf);
      form := ReadSlice(form, part.value, namesOf, textOf);
      done := done + [part.value];
      cursor := next;
    }
  }

  lemma SliceNext(rest: Bytes, d: Bytes)
    requires d != []
    ensures SlicesAfter(rest, d) ==
            if StartsDashed(rest) then []
            else
              var r := SkipCrlf(rest);
              match Find(r, d)
              case None => []
              case Some(n) => [DropCrlf(r[..n])] + SlicesAfter(r[n + |d|..], d)
  {
    hide Find, DropCrlf, SkipCrlf, StartsDashed;
  }

  lemma Regroup(done: seq<Bytes>, part: Bytes, more: seq<Bytes>)
    ensures done + ([part] + more) == (done + [part]) + more
  {
  }

  lemma NoSlices(namesOf: Bytes -> Names, textOf: Bytes -> string)
    ensures FormOf([], namesOf, textOf) == Form(map[], [])
  {
  }

  // ---- round trip ----

  /** The printed form of the parts, after the first delimiter. */
  function Tail(parts: seq<Part>, d: Bytes): Bytes {
    if parts == [] then [DASH, DASH] + CRLF
    else CRLF + (parts[0].headers + BLANK + parts[0].content + CRLF + (d + Tail(parts[1..], d)))
  }

  function Print(parts: seq<Part>, d: Bytes): Bytes { d + Tail(parts, d) }

  predicate Contains(s: Bytes, d: Bytes) { Find(s, d).Some? }

  /** A delimiter: two dashes and a boundary without line breaks. */
  predicate Delimiter(d: Bytes) { |d| > 2 && CR !in d && LF !in d }

  /** A header block that is not empty, ends where it ends, and is free of the delimiter. */
  predicate GoodHeaders(h: Bytes, d: Bytes) {
    h != [] && Find(h + BLANK, BLANK) == Some(|h|) && !Contains(h, d)
  }

  /** A byte the delimiter lacks ends the search in what is before it. */
  lemma {:induction false} FindPast(x: Bytes, b: Byte, y: Bytes, d: Bytes)
    requires b !in d && d != []
    ensures Find(x + [b] + y, d)
      == if Contains(x, d) then Find(x, d)
         else match Find(y, d) case None => None case Some(n) => Some(|x| + 1 + n)
  {
    var s := x + [b] + y;
    assert s[|x|] == b && forall i :: 0 <= i < |d| ==> d[i] != b;
    assert d <= s ==> forall i :: 0 <= i < |d| ==> d[i] == s[i];
    assert d <= s <==> d <= x by {
      if d <= s { assert d == s[..|d|] == x[..|d|]; }
      if d <= x { assert s[..|d|] == x[..|d|]; }
    }
    if x == [] {
      assert s[1..] == y;
    } else if !(d <= s) {
      assert s[1..] == x[1..] + [b] + y;
      FindPast(x[1..], b, y, d);
    }
  }

  lemma FindPastCrlf(x: Bytes, y: Bytes, d: Bytes)
    requires Delimiter(d)
    ensures Find(x + CRLF + y, d)
      == if Contains(x, d) then Find(x, d)
         else match Find(y, d) case None => None case Some(n) => Some(|x| + 2 + n)
  {
    hide Find;
    NotInEmpty(d);
    FindPast([], LF, y, d);
    FindPast(x, CR, [LF] + y, d);
    assert [] + [LF] + y == [LF] + y;
    assert x + [CR] + ([LF] + y) == x + CRLF + y;
  }

  lemma NotInEmpty(d: Bytes)
    requires d != []
    ensures Find([], d) == None
  {
  }

  lemma FindHere(d: Bytes, more: Bytes)
    ensures Find(d + more, d) == Some(0)
  {
  }

  /** Behind an intact part stands the next delimiter. */
  lemma PartEnds(p: Part, d: Bytes, more: Bytes)
    requires Delimiter(d) && !Contains(p.headers, d)
    ensures Find(p.headers + BLANK + p.content + CRLF + (d + more), d)
      == Some(|p.headers| + 4 + if Contains(p.content, d) then Find(p.content, d).value else |p.content| + 2)
  {
    hide Find;
    FindHere(d, more);
    NotInEmpty(d);
    var z := p.content + CRLF + (d + more);
    FindPastCrlf(p.content, d + more, d);
    FindPastCrlf([], z, d);
    FindPastCrlf(p.headers, [] + CRLF + z, d);
    assert p.headers + CRLF + ([] + CRLF + z) == p.headers + BLANK + p.content + CRLF + (d + more);
  }

  function Raw(p: Part): Bytes { p.headers + BLANK + p.content }

  function Raws(parts: seq<Part>): seq<Bytes> { if parts == [] then [] else [Raw(parts[0])] + Raws(parts[1..]) }

  ghost predicate AllGood(parts: seq<Part>, d: Bytes) {
    forall i :: 0 <= i < |parts| ==> GoodHeaders(parts[i].headers, d)
  }

  /** The first slice of a printed form: the part itself, or cut off inside its content. */
  lemma FirstSlice(parts: seq<Part>, d: Bytes)
    requires Delimiter(d) && parts != [] && GoodHeaders(parts[0].headers, d)
    ensures var p, s := parts[0], SlicesAfter(Tail(parts, d), d);
      s != []
      && if Contains(p.content, d)
         then s[0] == DropCrlf(p.headers + BLANK + p.content[..Find(p.content, d).value])
         else s == [Raw(p)] + SlicesAfter(Tail(parts[1..], d), d)
  {
    hide Find, SlicesAfter, DropCrlf;
    var p, t := parts[0], Tail(parts, d);
    var more := Tail(parts[1..], d);
    var r := p.headers + BLANK + p.content + CRLF + (d + more);
    assert t == CRLF + r && SkipCrlf(t) == r;
    SliceNext(t, d);
    PartEnds(p, d, more);
    SliceEnds(p, d, more, Find(r, d).value);
  }

  lemma SliceEnds(p: Part, d: Bytes, more: Bytes, n: nat)
    requires Delimiter(d)
    requires n == |p.headers| + 4 + if Contains(p.content, d) then Find(p.content, d).value else |p.content| + 2
    ensures var r := p.headers + BLANK + p.content + CRLF + (d + more);
      n + |d| <= |r|
      && if Contains(p.content, d) then r[..n] == p.headers + BLANK + p.content[..Find(p.content, d).value]
         else DropCrlf(r[..n]) == Raw(p) && r[n + |d|..] == more
  {
    hide Find;
    var r := p.headers + BLANK + p.content + CRLF + (d + more);
    if !Contains(p.content, d) {
      assert r[..n] == Raw(p) + CRLF;
      assert DropCrlf(Raw(p) + CRLF) == Raw(p);
    }
  }

  /** Reading printed parts back gives the parts when no content holds the delimiter. */
  lemma {:induction false} SlicesOfPrinted(parts: seq<Part>, d: Bytes)
    requires Delimiter(d) && AllGood(parts, d) && forall i :: 0 <= i < |parts| ==> !Contains(parts[i].content, d)
    ensures SlicesAfter(Tail(parts, d), d) == Raws(parts)
  {
    if parts != [] {
      FirstSlice(parts, d);
      SlicesOfPrinted(parts[1..], d);
    }
  }

  /** The files the parts stand for. */
  function FilesOf(parts: seq<Part>, namesOf: Bytes -> Names): seq<File> {
    if parts == [] then []
    else
      var last := parts[|parts| - 1];
      FilesOf(parts[..|parts| - 1], namesOf) +
        [File(namesOf(last.headers).field, namesOf(last.headers).file, last.content)]
  }

  ghost predicate AllFiles(parts: seq<Part>, namesOf: Bytes -> Names) {
    forall i :: 0 <= i < |parts| ==> namesOf(parts[i].headers).field != "" && namesOf(parts[i].headers).file != ""
  }

  /** What a slice of good headers and any content adds. */
  function AddPart(form: Form, p: Part, namesOf: Bytes -> Names, textOf: Bytes -> string): Form {
    var names := namesOf(p.headers);
    if names.field == "" then form
    else if names.file == "" then form.(fields := form.fields[names.field := textOf(p.content)])
    else form.(files := form.files + [File(names.field, names.file, p.content)])
  }

  lemma RawAddsPart(form: Form, p: Part, d: Bytes, namesOf: Bytes -> Names, textOf: Bytes -> string)
    requires GoodHeaders(p.headers, d)
    ensures AddSlice(form, Raw(p), namesOf, textOf) == AddPart(form, p, namesOf, textOf)
  {
    hide Find;
    FindInFront(p.headers + BLANK, p.content, BLANK);
    assert Raw(p)[..|p.headers|] == p.headers && Raw(p)[|p.headers| + 4..] == p.content;
  }

  /** What comes behind a find does not move it. */
  lemma {:induction false} FindInFront(s: Bytes, more: Bytes, d: Bytes)
    requires Find(s, d).Some?
    ensures Find(s + more, d) == Find(s, d)
    decreases |s|
  {
    if d <= s {
      assert d <= s + more;
    } else {
      assert (s + more)[1..] == s[1..] + more;
      FindInFront(s[1..], more, d);
      if d <= s + more {
        ShortPrefix(s, more, d);
      }
    }
  }

  lemma ShortPrefix(s: Bytes, more: Bytes, d: Bytes)
    requires d <= s + more && |d| <= |s|
    ensures d <= s
  {
    assert d == (s + more)[..|d|] == s[..|d|];
  }

  lemma {:induction false} RawsForm(parts: seq<Part>, d: Bytes, namesOf: Bytes -> Names, textOf: Bytes -> string)
    requires AllGood(parts, d) && AllFiles(parts, namesOf)
    ensures FormOf(Raws(parts), namesOf, textOf) == Form(map[], FilesOf(parts, namesOf))
  {
    if parts != [] {
      var front, last := parts[..|parts| - 1], parts[|parts| - 1];
      RawsForm(front, d, namesOf, textOf);
      RawsLast(parts);
      FormMore(Raws(front), Raw(last), namesOf, textOf);
      RawAddsPart(FormOf(Raws(front), namesOf, textOf), last, d, namesOf, textOf);
    }
  }

  lemma {:induction false} RawsLast(parts: seq<Part>)
    requires parts != []
    ensures Raws(parts) == Raws(parts[..|parts| - 1]) + [Raw(parts[|parts| - 1])]
  {
    if |parts| > 1 {
      RawsLast(parts[1..]);
      assert parts[1..][..|parts| - 2] == parts[..|parts| - 1][1..];
    }
  }

  // ---- exactly when the round trip holds ----

  predicate Clean(parts: seq<Part>, d: Bytes) { forall i :: 0 <= i < |parts| ==> !Contains(parts[i].content, d) }

  /** What a piece contains, the whole contains. */
  lemma PieceContains(a: Bytes, piece: Bytes, b: Bytes, d: Bytes)
    requires Contains(piece, d)
    ensures Contains(a + piece + b, d)
  {
    FindInFront(piece, b, d);
    BehindContains(a, piece + b, d);
    assert a + piece + b == a + (piece + b);
  }

  lemma {:induction false} BehindContains(a: Bytes, s: Bytes, d: Bytes)
    requires Contains(s, d)
    ensures Contains(a + s, d)
  {
    if a == [] {
      assert a + s == s;
    } else {
      BehindContains(a[1..], s, d);
      assert (a + s)[1..] == a[1..] + s;
    }
  }

  /** No slice contains the delimiter. */
  lemma {:induction false} SlicesLack(rest: Bytes, d: Bytes)
    requires d != []
    ensures forall i :: 0 <= i < |SlicesAfter(rest, d)| ==> !Contains(SlicesAfter(rest, d)[i], d)
    decreases |rest|
  {
    hide SlicesAfter, Find, StartsDashed;
    SliceNext(rest, d);
    if !StartsDashed(rest) && Find(SkipCrlf(rest), d).Some? {
      var r, n := SkipCrlf(rest), Find(SkipCrlf(rest), d).value;
      SlicesLack(r[n + |d|..], d);
      var slice := DropCrlf(r[..n]);
      assert slice + r[|slice|..] == r;
      if Contains(slice, d) { FindInFront(slice, r[|slice|..], d); }
    }
  }

  /** No file read from slices without the delimiter has it in its content. */
  lemma {:induction false} FilesLack(slices: seq<Bytes>, d: Bytes, namesOf: Bytes -> Names, textOf: Bytes -> string)
    requires forall i :: 0 <= i < |slices| ==> !Contains(slices[i], d)
    ensures forall f :: f in FormOf(slices, namesOf, textOf).files ==> !Contains(f.content, d)
  {
    hide Find;
    if slices != [] {
      var front, last := slices[..|slices| - 1], slices[|slices| - 1];
      FilesLack(front, d, namesOf, textOf);
      if Find(last, BLANK).Some? {
        var at := Find(last, BLANK).value + 4;
        assert last == last[..at] + last[at..] + [];
        if Contains(last[at..], d) { PieceContains(last[..at], last[at..], [], d); }
      }
    }
  }

  lemma {:induction false} FileOfPart(parts: seq<Part>, k: nat, namesOf: Bytes -> Names)
    requires k < |parts|
    ensures exists f :: f in FilesOf(parts, namesOf) && f.content == parts[k].content
  {
    if k < |parts| - 1 {
      FileOfPart(parts[..|parts| - 1], k, namesOf);
    } else {
      var fs := FilesOf(parts, namesOf);
      assert fs[|fs| - 1] in fs && fs[|fs| - 1].content == parts[k].content;
    }
  }

  /** A printed form of file parts reads back as exactly those files, in order,
      whatever line breaks they hold, precisely when no content holds the delimiter. */
  lemma RoundTrip(parts: seq<Part>, d: Bytes, namesOf: Bytes -> Names, textOf: Bytes -> string)
    requires Delimiter(d) && AllGood(parts, d) && AllFiles(parts, namesOf)
    ensures FormOf(Slices(Print(parts, d), d), namesOf, textOf) == Form(map[], FilesOf(parts, namesOf))
      <==> Clean(parts, d)
  {
    hide Find, Tail, FormOf, SlicesAfter;
    FindHere(d, Tail(parts, d));
    assert Print(parts, d)[|d|..] == Tail(parts, d);
    if Clean(parts, d) {
      SlicesOfPrinted(parts, d);
      RawsForm(parts, d, namesOf, textOf);
    } else {
      var k :| 0 <= k < |parts| && Contains(parts[k].content, d);
      FileOfPart(parts, k, namesOf);
      SlicesLack(Tail(parts, d), d);
      FilesLack(SlicesAfter(Tail(parts, d), d), d, namesOf, textOf);
    }
  }

  // ---- forms with fields ----

  predicate IsFile(p: Part, namesOf: Bytes -> Names) {
    namesOf(p.headers).field != "" && namesOf(p.headers).file != ""
  }

  predicate IsField(p: Part, name: string, namesOf: Bytes -> Names) {
    name != "" && namesOf(p.headers) == Names(name, "")
  }

  function FileParts(parts: seq<Part>, namesOf: Bytes -> Names): seq<Part> {
    if parts == [] then []
    else
      var last := parts[|parts| - 1];
      FileParts(parts[..|parts| - 1], namesOf) + if IsFile(last, namesOf) then [last] else []
  }

  /** The content of the last field part of that name. */
  function FieldContent(parts: seq<Part>, name: string, namesOf: Bytes -> Names): Option<Bytes> {
    if parts == [] then None
    else
      var last := parts[|parts| - 1];
      if IsField(last, name, namesOf) then Some(last.content) else FieldContent(parts[..|parts| - 1], name, namesOf)
  }

  lemma {:induction false} FieldContentLast(parts: seq<Part>, name: string, namesOf: Bytes -> Names, i: nat)
    requires i < |parts| && IsField(parts[i], name, namesOf)
    requires forall k :: i < k < |parts| ==> !IsField(parts[k], name, namesOf)
    ensures FieldContent(parts, name, namesOf) == Some(parts[i].content)
  {
    hide IsField;
    if i < |parts| - 1 { FieldContentLast(parts[..|parts| - 1], name, namesOf, i); }
  }

  lemma {:induction false} NoFieldContent(parts: seq<Part>, name: string, namesOf: Bytes -> Names)
    requires forall k :: 0 <= k < |parts| ==> !IsField(parts[k], name, namesOf)
    ensures FieldContent(parts, name, namesOf) == None
  {
    hide IsField;
    if parts != [] { NoFieldContent(parts[..|parts| - 1], name, namesOf); }
  }

  ghost predicate Holds(form: Form, parts: seq<Part>, namesOf: Bytes -> Names, textOf: Bytes -> string) {
    && form.files == FilesOf(FileParts(parts, namesOf), namesOf)
    && forall name ::
      var content := FieldContent(parts, name, namesOf);
      (name in form.fields <==> content.Some?) && (content.Some? ==> form.fields[name] == textOf(content.value))
  }

  lemma FilesMore(parts: seq<Part>, p: Part, namesOf: Bytes -> Names)
    ensures FilesOf(FileParts(parts + [p], namesOf), namesOf) ==
            FilesOf(FileParts(parts, namesOf), namesOf) +
              if IsFile(p, namesOf) then [File(namesOf(p.headers).field, namesOf(p.headers).file, p.content)] else []
  {
    assert (parts + [p])[..|parts|] == parts;
    var files := FileParts(parts, namesOf);
    assert (files + [p])[..|files|] == files && files + [] == files;
  }

  lemma FieldMore(parts: seq<Part>, p: Part, name: string, namesOf: Bytes -> Names)
    ensures FieldContent(parts + [p], name, namesOf) ==
            if IsField(p, name, namesOf) then Some(p.content) else FieldContent(parts, name, namesOf)
  {
    assert (parts + [p])[..|parts|] == parts;
  }

  lemma PartHolds(form: Form, parts: seq<Part>, p: Part, namesOf: Bytes -> Names, textOf: Bytes -> string)
    requires Holds(form, parts, namesOf, textOf)
    ensures Holds(AddPart(form, p, namesOf, textOf), parts + [p], namesOf, textOf)
  {
    hide FilesOf, FileParts, FieldContent;
    FilesMore(parts, p, namesOf);
    var more := AddPart(form, p, namesOf, textOf);
    forall name
      ensures var content := FieldContent(parts + [p], name, namesOf);
        (name in more.fields <==> content.Some?) && (content.Some? ==> more.fields[name] == textOf(content.value))
    {
      FieldMore(parts, p, name, namesOf);
    }
  }

  lemma {:induction false} RawsHold(parts: seq<Part>, d: Bytes, namesOf: Bytes -> Names, textOf: Bytes -> string)
    requires AllGood(parts, d)
    ensures Holds(FormOf(Raws(parts), namesOf, textOf), parts, namesOf, textOf)
  {
    hide Holds, AddSlice, AddPart, FormOf, GoodHeaders;
    if parts == [] {
      NoSlices(namesOf, textOf);
      NothingHeld(namesOf, textOf);
    } else {
      var front, last := parts[..|parts| - 1], parts[|parts| - 1];
      RawsHold(front, d, namesOf, textOf);
      RawsLast(parts);
      FormMore(Raws(front), Raw(last), namesOf, textOf);
      RawAddsPart(FormOf(Raws(front), namesOf, textOf), last, d, namesOf, textOf);
      PartHolds(FormOf(Raws(front), namesOf, textOf), front, last, namesOf, textOf);
      assert parts == front + [last];
    }
  }

  lemma NothingHeld(namesOf: Bytes -> Names, textOf: Bytes -> string)
    ensures Holds(Form(map[], []), [], namesOf, textOf)
  {
  }

  /** A printed form of fields, files and nameless parts reads back as its files in
      order and, under each field name, the text of the last part of that name. */
  lemma AnyFormReadsBack(parts: seq<Part>, d: Bytes, namesOf: Bytes -> Names, textOf: Bytes -> string, name: string)
    requires Delimiter(d) && AllGood(parts, d) && Clean(parts, d)
    ensures var form := FormOf(Slices(Print(parts, d), d), namesOf, textOf);
      && form.files == FilesOf(FileParts(parts, namesOf), namesOf)
      && (name in form.fields <==> exists i :: 0 <= i < |parts| && IsField(parts[i], name, namesOf))
      && forall i :: 0 <= i < |parts| && IsField(parts[i], name, namesOf) ==>
           (exists k :: i < k < |parts| && IsField(parts[k], name, namesOf)) ||
           (name in form.fields && form.fields[name] == textOf(parts[i].content))
  {
    hide Find, Tail, FormOf, SlicesAfter, GoodHeaders, FileParts, FilesOf, IsField;
    FindHere(d, Tail(parts, d));
    assert Print(parts, d)[|d|..] == Tail(parts, d);
    SlicesOfPrinted(parts, d);
    RawsHold(parts, d, namesOf, textOf);
    if i :| 0 <= i < |parts| && IsField(parts[i], name, namesOf) {
      var last := LastField(parts, name, namesOf, i);
      FieldContentLast(parts, name, namesOf, last);
    } else {
      NoFieldContent(parts, name, namesOf);
    }
    forall i | 0 <= i < |parts| && IsField(parts[i], name, namesOf) &&
               !(exists k :: i < k < |parts| && IsField(parts[k], name, namesOf))
      ensures FieldContent(parts, name, namesOf) == Some(parts[i].content)
    {
      FieldContentLast(parts, name, namesOf, i);
    }
  }

  lemma LastField(parts: seq<Part>, name: string, namesOf: Bytes -> Names, i: nat) returns (last: nat)
    requires i < |parts| && IsField(parts[i], name, namesOf)
    ensures i <= last < |parts| && IsField(parts[last], name, namesOf)
    ensures forall k :: last < k < |parts| ==> !IsField(parts[k], name, namesOf)
    decreases |parts| - i
  {
    hide IsField;
    if k :| i < k < |parts| && IsField(parts[k], name, namesOf) {
      last := LastField(parts, name, namesOf, k);
    } else {
      last := i;
    }
  }

  /** A delimiter inside a line, which section 5.1.1 of RFC 2046 lets a content hold,
      cuts the content off. */
  lemma MidLineDelimiter(namesOf: Bytes -> Names, textOf: Bytes -> string)
    requires namesOf([65]).field != "" && namesOf([65]).file != ""
    ensures var d: Bytes, content: Bytes := [DASH, DASH, 98], [120, DASH, DASH, 98];
      var parts := [Part([65], content)];
      Delimiter(d) && AllGood(parts, d)
      && FormOf(Slices(Print(parts, d), d), namesOf, textOf) != Form(map[], FilesOf(parts, namesOf))
  {
    var d: Bytes, content: Bytes := [DASH, DASH, 98], [120, DASH, DASH, 98];
    var parts := [Part([65], content)];
    assert content[1..] == d;
    assert Contains(content, d);
    var h: Bytes := [65];
    assert (h + BLANK)[1..] == BLANK && (h + BLANK)[0] == 65 && BLANK[0] == CR;
    assert !(BLANK <= h + BLANK);
    assert Find(BLANK, BLANK) == Some(0);
    assert Find(h + BLANK, BLANK) == Some(1);
    assert h[1..] == [];
    NotInEmpty(d);
    assert !Contains(h, d);
    assert GoodHeaders(h, d);
    RoundTrip(parts, d, namesOf, textOf);
  }
}
