/** The PDF export: five objects and a cross-reference table with exact offsets.
    Sections 7.3.8, 7.5.4 and 7.5.5 of ISO 32000-1. */
module Pdf {
  import opened Wrappers
  import opened Text
  import opened PdfText

  // ----- the file -----

  function ObjectText(number: nat, body: string): string { Dec(number) + " 0 obj " + body + " endobj" }

  /** Everything before the cross-reference table: the header line and the objects, a line feed after each. */
  function Body(header: string, objects: seq<string>): string {
    if objects == [] then header else Body(header, objects[..|objects| - 1]) + objects[|objects| - 1] + "\n"
  }

  function Entry(offset: nat): string { ZeroPad(offset, 10) + " 00000 n \n" }

  function FreeEntry(): string { "0000000000 65535 f \n" }

  function Entries(offsets: seq<nat>): string {
    if offsets == [] then "" else Entries(offsets[..|offsets| - 1]) + Entry(offsets[|offsets| - 1])
  }

  function Offsets(header: string, objects: seq<string>): (r: seq<nat>)
    ensures |r| == |objects|
  {
    seq(|objects|, i requires 0 <= i < |objects| => |Body(header, objects[..i])|)
  }

  function XrefHead(size: nat): string { "xref\n0 " + Dec(size) + "\n" }

  function Trailer(size: nat, xref: nat): string {
    "trailer << /Size " + Dec(size) + " /Root 1 0 R >>\nstartxref\n" + Dec(xref) + "\n%%EOF"
  }

  function File(header: string, objects: seq<string>): string {
    var body := Body(header, objects);
    body + XrefHead(|objects| + 1) + FreeEntry() + Entries(Offsets(header, objects)) + Trailer(|objects| + 1, |body|)
  }

  /** The writing loops, over any list of objects. */
  method WriteFile(header: string, objects: seq<string>) returns (output: string)
    ensures output == File(header, objects)
  {
    output := header;
    var offsets: seq<nat> := [];
    var i := 0;
    while i < |objects|
      invariant 0 <= i <= |objects|
      invariant output == Body(header, objects[..i])
      invariant |offsets| == i && forall k :: 0 <= k < i ==> offsets[k] == |Body(header, objects[..k])|
    {
      offsets := offsets + [|output|];
      output := output + objects[i] + "\n";
      assert objects[..i + 1][..i] == objects[..i];
      i := i + 1;
    }
    assert objects[..i] == objects;
    assert offsets == Offsets(header, objects);
    var xref := |output|;
    output := output + XrefHead(|objects| + 1);
    output := output + FreeEntry();
    ghost var front := output;
    ghost var written := "";
    var k := 0;
    while k < |offsets|
      invariant 0 <= k <= |offsets|
      invariant written == Entries(offsets[..k]) && output == front + written
    {
      Associative(front, written, Entry(offsets[k]));
      output := output + (ZeroPad(offsets[k], 10) + " 00000 n \n");
      written := written + Entry(offsets[k]);
      assert offsets[..k + 1][..k] == offsets[..k];
      k := k + 1;
    }
    assert offsets[..k] == offsets;
    output := output + Trailer(|objects| + 1, xref);
  }

  // ----- what a reader finds -----

  /** The text `t` stands in `s` at `at`. */
  predicate HasAt(s: string, at: nat, t: string) { at + |t| <= |s| && s[at..at + |t|] == t }

  lemma HasAtBetween(a: string, t: string, b: string)
    ensures HasAt(a + t + b, |a|, t)
  {
  }

  lemma HasAtMore(s: string, at: nat, t: string, more: string)
    requires HasAt(s, at, t)
    ensures HasAt(s + more, at, t)
  {
    assert (s + more)[at..at + |t|] == s[at..at + |t|];
  }

  lemma HasAtAfter(before: string, s: string, at: nat, t: string)
    requires HasAt(s, at, t)
    ensures HasAt(before + s, |before| + at, t)
  {
    assert (before + s)[|before| + at..|before| + at + |t|] == s[at..at + |t|];
  }

  /** Every object stands where the body was that long. */
  lemma {:induction false} ObjectAt(header: string, objects: seq<string>, i: nat)
    requires i < |objects|
    ensures HasAt(Body(header, objects), |Body(header, objects[..i])|, objects[i])
  {
    var front, last := objects[..|objects| - 1], objects[|objects| - 1];
    if i < |front| {
      ObjectAt(header, front, i);
      assert front[..i] == objects[..i];
      HasAtMore(Body(header, front), |Body(header, objects[..i])|, objects[i], last);
      HasAtMore(Body(header, front) + last, |Body(header, objects[..i])|, objects[i], "\n");
    } else {
      assert objects[..i] == front;
      HasAtBetween(Body(header, front), last, "\n");
    }
  }

  const TenDigits: nat := 10_000_000_000

  lemma TenDigitsIsPower()
    ensures Pow10(10) == TenDigits
  {
    assert Pow10(2) == 100;
    assert Pow10(4) == 10_000;
    assert Pow10(6) == 1_000_000;
    assert Pow10(8) == 100_000_000;
  }

  /** An entry is 20 bytes long exactly for an offset below ten to the tenth, and then its first ten bytes read
      as the offset. */
  lemma EntryWidth(offset: nat)
    ensures |Entry(offset)| == 20 <==> offset < TenDigits
    ensures offset < TenDigits ==> Value(ZeroPad(offset, 10)) == offset && Entry(offset)[..10] == ZeroPad(offset, 10)
  {
    ZeroPadReads(offset, 10);
    TenDigitsIsPower();
    assert Entry(offset)[..|ZeroPad(offset, 10)|] == ZeroPad(offset, 10);
  }

  lemma {:induction false} EntryAt(offsets: seq<nat>, i: nat)
    requires i <= |offsets| && forall k :: 0 <= k < |offsets| ==> offsets[k] < TenDigits
    ensures |Entries(offsets)| == 20 * |offsets|
    ensures i < |offsets| ==> HasAt(Entries(offsets), 20 * i, Entry(offsets[i]))
  {
    if offsets != [] {
      var front, last := offsets[..|offsets| - 1], offsets[|offsets| - 1];
      EntryWidth(last);
      if i < |front| {
        EntryAt(front, i);
        HasAtMore(Entries(front), 20 * i, Entry(offsets[i]), Entry(last));
      } else {
        EntryAt(front, |front|);
        HasAtBetween(Entries(front), Entry(last), "");
        assert Entries(front) + Entry(last) + "" == Entries(offsets);
      }
    }
  }

  /** Bodies only grow. */
  lemma {:induction false} BodyGrows(header: string, objects: seq<string>, i: nat)
    requires i <= |objects|
    ensures |Body(header, objects[..i])| <= |Body(header, objects)|
  {
    if i < |objects| {
      var front := objects[..|objects| - 1];
      BodyGrows(header, front, i);
      assert front[..i] == objects[..i];
    } else {
      assert objects[..i] == objects;
    }
  }

  /** Every object stands in the file where its offset says. */
  lemma ObjectInFile(header: string, objects: seq<string>, i: nat)
    requires i < |objects|
    ensures HasAt(File(header, objects), |Body(header, objects[..i])|, objects[i])
  {
    var body := Body(header, objects);
    ObjectAt(header, objects, i);
    InBody(body, XrefHead(|objects| + 1), FreeEntry(), Entries(Offsets(header, objects)),
           Trailer(|objects| + 1, |body|), |Body(header, objects[..i])|, objects[i]);
  }

  /** A 20-byte entry whose first ten bytes are the offset in decimal. */
  predicate EntrySays(entry: string, offset: nat) {
    |entry| == 20 && AllDigits(entry[..10]) && Value(entry[..10]) == offset
  }

  /** In a file below ten to the tenth bytes, the entry of each object stands in its place in the table, 20 bytes
      after the one before, and gives the offset of the object. */
  lemma TableIsExact(header: string, objects: seq<string>, i: nat)
    requires |File(header, objects)| < TenDigits && i < |objects|
    ensures HasAt(File(header, objects), |Body(header, objects)| + |XrefHead(|objects| + 1)| + 20 + 20 * i,
                  Entry(|Body(header, objects[..i])|))
    ensures EntrySays(Entry(|Body(header, objects[..i])|), |Body(header, objects[..i])|)
  {
    var body, offset := Body(header, objects), |Body(header, objects[..i])|;
    OffsetsSmall(header, objects);
    EntryAt(Offsets(header, objects), i);
    EntryWidth(offset);
    InTable(body, XrefHead(|objects| + 1), FreeEntry(), Entries(Offsets(header, objects)),
            Trailer(|objects| + 1, |body|), 20 * i, Entry(offset));
    assert |FreeEntry()| == 20;
  }

  lemma OffsetsSmall(header: string, objects: seq<string>)
    requires |File(header, objects)| < TenDigits
    ensures forall k :: 0 <= k < |objects| ==> Offsets(header, objects)[k] < TenDigits
  {
    forall k | 0 <= k < |objects|
      ensures |Body(header, objects[..k])| <= |Body(header, objects)|
    {
      BodyGrows(header, objects, k);
    }
  }

  lemma InBody(body: string, head: string, free: string, entries: string, trailer: string, at: nat, t: string)
    requires HasAt(body, at, t)
    ensures HasAt(body + head + free + entries + trailer, at, t)
  {
    HasAtMore(body, at, t, head);
    HasAtMore(body + head, at, t, free);
    HasAtMore(body + head + free, at, t, entries);
    HasAtMore(body + head + free + entries, at, t, trailer);
  }

  lemma InTable(body: string, head: string, free: string, entries: string, trailer: string, at: nat, t: string)
    requires HasAt(entries, at, t)
    ensures HasAt(body + head + free + entries + trailer, |body| + |head| + |free| + at, t)
  {
    HasAtAfter(body + head + free, entries, at, t);
    HasAtMore(body + head + free + entries, |body| + |head| + |free| + at, t, trailer);
  }

  function StartXref(xref: nat): string { "startxref\n" + Dec(xref) + "\n%%EOF" }

  /** The file ends with the place of the table, and the table begins there. */
  lemma StartXrefIsExact(header: string, objects: seq<string>)
    ensures var file, xref := File(header, objects), |Body(header, objects)|;
            && |StartXref(xref)| <= |file| && file[|file| - |StartXref(xref)|..] == StartXref(xref)
            && HasAt(file, xref, XrefHead(|objects| + 1))
  {
    var body, head := Body(header, objects), XrefHead(|objects| + 1);
    var rest := FreeEntry() + Entries(Offsets(header, objects)) + Trailer(|objects| + 1, |body|);
    assert File(header, objects) == body + head + rest;
    HasAtBetween(body, head, rest);
    var before := "trailer << /Size " + Dec(|objects| + 1) + " /Root 1 0 R >>\n";
    assert Trailer(|objects| + 1, |body|) == before + StartXref(|body|);
  }

  // ----- the export -----

  function StreamHead(length: nat): string { "<< /Length " + Dec(length) + " >> stream\n" }

  function StreamObject(bytes: string): string {
    ObjectText(5, StreamHead(|bytes|) + bytes + StreamEnd)
  }

  function FixedObjects(): (r: seq<string>)
    ensures |r| == 4
  {
    [ObjectText(1, "<< /Type /Catalog /Pages 2 0 R >>"),
     ObjectText(2, "<< /Type /Pages /Kids [3 0 R] /Count 1 >>"),
     ObjectText(3, "<< /Type /Page /Parent 2 0 R /MediaBox [0 0 612 792] "
       + "/Resources << /Font << /F1 4 0 R >> >> /Contents 5 0 R >>"),
     ObjectText(4, "<< /Type /Font /Subtype /Type1 /BaseFont /Helvetica >>")]
  }

  lemma OneDigit(n: nat)
    requires n < 10
    ensures Dec(n) == [('0' as int + n) as char]
  {
  }

  /** The first four objects, as they stand in every export. */
  lemma FixedObjectsInFull()
    ensures var objects := FixedObjects();
            && objects[0] == "1" + " 0 obj " + "<< /Type /Catalog /Pages 2 0 R >>" + " endobj"
            && objects[1] == "2" + " 0 obj " + "<< /Type /Pages /Kids [3 0 R] /Count 1 >>" + " endobj"
            && objects[2] == "3" + " 0 obj " + ("<< /Type /Page /Parent 2 0 R /MediaBox [0 0 612 792] "
                 + "/Resources << /Font << /F1 4 0 R >> >> /Contents 5 0 R >>") + " endobj"
            && objects[3] == "4" + " 0 obj " + "<< /Type /Font /Subtype /Type1 /BaseFont /Helvetica >>" + " endobj"
  {
    OneDigit(1);
    OneDigit(2);
    OneDigit(3);
    OneDigit(4);
  }

  /** The fifth object: the content stream with its length in bytes. */
  lemma StreamObjectInFull(bytes: string)
    ensures StreamObject(bytes)
         == "5" + " 0 obj " + ("<< /Length " + Dec(|bytes|) + " >> stream\n" + bytes + "\nendstream") + " endobj"
  {
    OneDigit(5);
  }

  /** A file, part by part, with the size of its table and the place where it starts. */
  lemma FileInFull(header: string, objects: seq<string>)
    ensures var (body, size) := (Body(header, objects), Dec(|objects| + 1));
            File(header, objects)
            == body + ("xref\n0 " + size + "\n") + "0000000000 65535 f \n" + Entries(Offsets(header, objects))
               + ("trailer << /Size " + size + " /Root 1 0 R >>\nstartxref\n" + Dec(|body|) + "\n%%EOF")
    ensures forall offset: nat :: Entry(offset) == ZeroPad(offset, 10) + " 00000 n \n"
  {
  }

  const Header := "%PDF-1.4\n"

  function Export(lines: seq<string>): string { File(Header, FixedObjects() + [StreamObject(Latin1(Content(lines)))]) }

  lemma ExportStarts(lines: seq<string>)
    ensures "%PDF-1.4\n" <= Export(lines)
  {
    var objects := FixedObjects() + [StreamObject(Latin1(Content(lines)))];
    BodyStarts(Header, objects);
  }

  lemma {:induction false} BodyStarts(header: string, objects: seq<string>)
    ensures header <= Body(header, objects)
  {
    if objects != [] { BodyStarts(header, objects[..|objects| - 1]); }
  }

  /** `_build_simple_pdf`. */
  method BuildSimplePdf(lines: seq<string>) returns (output: string)
    ensures output == Export(lines)
  {
    var shown := "";
    var i := |lines|;
    while i > 0
      invariant 0 <= i <= |lines|
      invariant shown == ShownAll(lines[i..])
    {
      i := i - 1;
      EscapesOnce(lines[i]);
      var one := "(" + EscapeInTurn(lines[i]) + ") Tj T*";
      assert lines[i..][1..] == lines[i + 1..];
      shown := if i == |lines| - 1 then one else one + " " + shown;
    }
    assert lines[i..] == lines;
    output := WriteFile(Header, FixedObjects() + [StreamObject(Latin1(Start + shown + " ET"))]);
  }

  /** The content stream begins right after its keyword, is as long as /Length says, and shows the lines with ends of
      line normalised. */
  lemma ExportReadsBack(lines: seq<string>)
    ensures var bytes := Latin1(Content(lines));
            && StreamReads(Export(lines), |Body(Header, FixedObjects())|, bytes)
            && Texts(bytes) == Some(NormalisedAll(Latin1All(lines)))
  {
    StreamFound(Header, FixedObjects(), Latin1(Content(lines)));
    PageShowsLines(lines);
  }

  /** At `offset` a stream object begins whose length entry reads as the length of its bytes, which follow. */
  predicate StreamReads(file: string, offset: nat, bytes: string) {
    && HasAt(file, offset, StreamStart(|bytes|))
    && HasAt(file, offset + |StreamStart(|bytes|)|, bytes + StreamEnd)
    && Value(Dec(|bytes|)) == |bytes|
  }

  lemma StreamFound(header: string, fixed: seq<string>, bytes: string)
    ensures StreamReads(File(header, fixed + [StreamObject(bytes)]), |Body(header, fixed)|, bytes)
  {
    var objects := fixed + [StreamObject(bytes)];
    assert objects[..|fixed|] == fixed;
    ObjectInFile(header, objects, |fixed|);
    StreamWithin(File(header, objects), |Body(header, fixed)|, bytes);
  }

  lemma StreamWithin(file: string, at: nat, bytes: string)
    requires HasAt(file, at, StreamObject(bytes))
    ensures StreamReads(file, at, bytes)
  {
    ValueDec(|bytes|);
    StreamParts(bytes);
    PartOfPart(file, at, StreamStart(|bytes|), bytes + StreamEnd, " endobj");
  }

  const StreamEnd := "\nendstream"

  function StreamStart(length: nat): string { Dec(5) + " 0 obj " + StreamHead(length) }

  lemma StreamParts(bytes: string)
    ensures StreamObject(bytes) == StreamStart(|bytes|) + (bytes + StreamEnd) + " endobj"
  {
    var start, head := Dec(5) + " 0 obj ", StreamHead(|bytes|);
    Associative(head, bytes, StreamEnd);
    Associative(start, head, bytes + StreamEnd);
  }

  lemma PartOfPart(s: string, at: nat, head: string, inner: string, tail: string)
    requires HasAt(s, at, head + inner + tail)
    ensures HasAt(s, at, head) && HasAt(s, at + |head|, inner)
  {
    var whole := head + inner + tail;
    SliceOfSlice(s, at, at + |whole|, 0, |head|);
    SliceOfSlice(s, at, at + |whole|, |head|, |head| + |inner|);
    assert whole[..|head|] == head;
    assert whole[|head|..|head| + |inner|] == inner;
  }

  lemma SliceOfSlice(s: string, a: nat, b: nat, c: nat, d: nat)
    requires a <= b <= |s| && c <= d <= b - a
    ensures s[a..b][c..d] == s[a + c..a + d]
  {
    forall k | 0 <= k < d - c
      ensures s[a..b][c..d][k] == s[a + c..a + d][k]
    {
    }
  }
}
