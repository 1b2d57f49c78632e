/** How the upload route picks a decoder for the résumé file:
    `file.filename.split('.')[-1].lower()` compared with "pdf" and "docx".
    The decoders themselves are not part of this model. */
module Upload {
  import opened Strings

  datatype DocumentKind = Pdf | Docx | PlainText

  /** `name.split('.')[-1]`: the text after the last '.', or the whole name
      when it has none. */
  function LastSegment(name: string): string
    decreases |name|
  {
    if name == [] then []
    else if name[|name| - 1] == '.' then []
    else LastSegment(name[..|name| - 1]) + [name[|name| - 1]]
  }

  /** The segment holds no '.', and the name is some prefix ending in '.'
      (or nothing) followed by it. */
  lemma {:induction false} LastSegmentShape(name: string)
    ensures '.' !in LastSegment(name)
    ensures |LastSegment(name)| <= |name|
    ensures name[|name| - |LastSegment(name)|..] == LastSegment(name)
    ensures |LastSegment(name)| < |name| ==> name[|name| - |LastSegment(name)| - 1] == '.'
    decreases |name|
  {
    if name != [] && name[|name| - 1] != '.' {
      var init := name[..|name| - 1];
      var last := name[|name| - 1];
      LastSegmentShape(init);
      var seg := LastSegment(init);
      assert LastSegment(name) == seg + [last];
      assert name == init + [last];
      assert |name| - |seg| - 1 == |init| - |seg|;
      assert name[|init| - |seg|..] == init[|init| - |seg|..] + [last];
      if |seg| + 1 < |name| {
        assert name[|name| - |seg| - 2] == init[|init| - |seg| - 1];
      }
    }
  }

  /** Splitting at the last '.' recovers what followed it. */
  lemma {:induction false} LastSegmentAfterDot(base: string, ext: string)
    requires '.' !in ext
    ensures LastSegment(base + "." + ext) == ext
    decreases |ext|
  {
    if ext == [] {
      assert base + "." + ext == base + ".";
    } else {
      var init := ext[..|ext| - 1];
      assert (base + "." + ext)[..|base + "." + ext| - 1] == base + "." + init;
      assert ext[|ext| - 1] in ext;
      LastSegmentAfterDot(base, init);
      assert init + [ext[|ext| - 1]] == ext;
    }
  }

  /** The decoder chosen for an uploaded file name. */
  function Classify(filename: string): DocumentKind
  {
    var ext := Lower(LastSegment(filename));
    if ext == "pdf" then Pdf
    else if ext == "docx" then Docx
    else PlainText
  }

  /** The extension alone decides, whatever its case and whatever precedes
      the last '.'. */
  lemma ClassifyByExtension(base: string, ext: string)
    requires '.' !in ext
    ensures Classify(base + "." + ext) ==
              if Lower(ext) == "pdf" then Pdf else if Lower(ext) == "docx" then Docx else PlainText
  {
    LastSegmentAfterDot(base, ext);
  }

  lemma ClassifyExamples()
    ensures Classify("resume.PDF") == Pdf
    ensures Classify("cv.final.docx") == Docx
    ensures Classify("notes.pdf.txt") == PlainText
  {
    ClassifyByExtension("resume", "PDF");
    assert "resume" + "." + "PDF" == "resume.PDF";
    assert Lower("PDF") == "pdf";
    ClassifyByExtension("cv.final", "docx");
    assert "cv.final" + "." + "docx" == "cv.final.docx";
    assert Lower("docx") == "docx";
    ClassifyByExtension("notes.pdf", "txt");
    assert "notes.pdf" + "." + "txt" == "notes.pdf.txt";
    assert Lower("txt") == "txt";
  }

  /** A name without any '.' is its own extension: a file called "pdf" is
      decoded as a PDF. */
  lemma {:induction false} NameWithoutDot(name: string)
    requires '.' !in name
    ensures LastSegment(name) == name
    decreases |name|
  {
    if name != [] {
      var init := name[..|name| - 1];
      assert name[|name| - 1] in name;
      assert forall c :: c in init ==> c in name;
      NameWithoutDot(init);
      assert init + [name[|name| - 1]] == name;
    }
  }

  /** A file called just "pdf" is handed to the PDF decoder. */
  lemma BareNameExample()
    ensures Classify("pdf") == Pdf
  {
    NameWithoutDot("pdf");
    assert Lower("pdf") == "pdf";
  }
}
