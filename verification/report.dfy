/** The downloadable report: the stored items, each under its fixed header,
    in a fixed order, separated by blank lines. */
module Report {
  import opened Optional
  import opened Text
  import opened Scoring
  import opened State

  datatype Part = ResumePart | QuizPart | RecommendationsPart | CoverLetterPart | JdAnalysisPart

  /** The order the report lists its parts in. */
  const Parts: seq<Part> := [ResumePart, QuizPart, RecommendationsPart, CoverLetterPart, JdAnalysisPart]

  function Position(p: Part): nat {
    match p
    case ResumePart => 0
    case QuizPart => 1
    case RecommendationsPart => 2
    case CoverLetterPart => 3
    case JdAnalysisPart => 4
  }

  /** The header line that opens each part. */
  function Title(p: Part): string {
    match p
    case ResumePart => "RESUME TEXT"
    case QuizPart => "QUIZ RESULTS"
    case RecommendationsPart => "LEARNING RECOMMENDATIONS"
    case CoverLetterPart => "COVER LETTER"
    case JdAnalysisPart => "JOB DESCRIPTION ANALYSIS"
  }

  /** The line that opens a part's section, e.g. `----- COVER LETTER -----`. */
  function Header(p: Part): string {
    "----- " + Title(p) + " -----\n"
  }

  const Separator := "\n\n"

  predicate Present(s: Session, p: Part) {
    match p
    case ResumePart => s.resumeText.Some?
    case QuizPart => s.quizResults.Some?
    case RecommendationsPart => s.recommendations.Some?
    case CoverLetterPart => s.coverLetter.Some?
    case JdAnalysisPart => s.jdAnalysis.Some?
  }

  /** The body of the quiz part: the score line, then the detailed rows as
      serialised by `dump` (the JSON encoder, not modelled here). */
  function QuizBody(q: QuizRecord, dump: seq<DetailedResult> -> string): string {
    "Score: " + NatToString(q.score) + " out of " + NatToString(q.total)
      + "\nDetailed Results:\n" + dump(q.detailed)
  }

  function Body(s: Session, p: Part, dump: seq<DetailedResult> -> string): string
    requires Present(s, p)
  {
    match p
    case ResumePart => s.resumeText.value
    case QuizPart => QuizBody(s.quizResults.value, dump)
    case RecommendationsPart => s.recommendations.value
    case CoverLetterPart => s.coverLetter.value
    case JdAnalysisPart => s.jdAnalysis.value
  }

  /** A part as it appears in the report: header, then body. */
  function Section(s: Session, p: Part, dump: seq<DetailedResult> -> string): string
    requires Present(s, p)
  {
    Header(p) + Body(s, p, dump)
  }

  /** What one `if ... in st.session_state: report_sections.append(...)`
      contributes: the part's section when the item is stored, nothing otherwise. */
  function Emit(s: Session, p: Part, dump: seq<DetailedResult> -> string): seq<string> {
    if Present(s, p) then [Section(s, p, dump)] else []
  }

  /** `report_sections`, built as the page builds it: one conditional append
      per item, in the fixed order. */
  function Sections(s: Session, dump: seq<DetailedResult> -> string): seq<string> {
    Emit(s, ResumePart, dump)
    + (Emit(s, QuizPart, dump)
    + (Emit(s, RecommendationsPart, dump)
    + (Emit(s, CoverLetterPart, dump)
    + Emit(s, JdAnalysisPart, dump))))
  }

  /** The conditional appends for the parts `ps`, in their order. */
  function EmitAll(s: Session, ps: seq<Part>, dump: seq<DetailedResult> -> string): seq<string> {
    if |ps| == 0 then [] else Emit(s, ps[0], dump) + EmitAll(s, ps[1..], dump)
  }

  /** `"\n\n".join(report_sections)` */
  function ReportText(s: Session, dump: seq<DetailedResult> -> string): string {
    Join(Separator, Sections(s, dump))
  }

  /** The parts of `ps` that are present in `s`, in the order of `ps`. */
  function Keep(s: Session, ps: seq<Part>): seq<Part> {
    if |ps| == 0 then [] else (if Present(s, ps[0]) then [ps[0]] else []) + Keep(s, ps[1..])
  }

  /** The parts present in `s`, in report order. */
  function PresentParts(s: Session): seq<Part> {
    Keep(s, Parts)
  }

  lemma {:induction false} KeepFacts(s: Session, ps: seq<Part>)
    requires forall i, j :: 0 <= i < j < |ps| ==> Position(ps[i]) < Position(ps[j])
    ensures forall p :: p in Keep(s, ps) <==> p in ps && Present(s, p)
    ensures forall i, j :: 0 <= i < j < |Keep(s, ps)| ==> Position(Keep(s, ps)[i]) < Position(Keep(s, ps)[j])
  {
    if |ps| > 0 {
      KeepFacts(s, ps[1..]);
      var rest := Keep(s, ps[1..]);
      forall k | 0 <= k < |rest| ensures Position(ps[0]) < Position(rest[k]) {
        assert rest[k] in ps[1..];
      }
    }
  }

  /** The present parts are exactly the stored items, each once, in report order. */
  lemma PresentPartsExact(s: Session)
    ensures forall p :: p in PresentParts(s) <==> Present(s, p)
    ensures forall i, j :: 0 <= i < j < |PresentParts(s)| ==>
      Position(PresentParts(s)[i]) < Position(PresentParts(s)[j])
  {
    KeepFacts(s, Parts);
  }

  lemma {:induction false} EmitAllKeeps(s: Session, ps: seq<Part>, dump: seq<DetailedResult> -> string)
    ensures |EmitAll(s, ps, dump)| == |Keep(s, ps)|
  {
    if |ps| > 0 {
      EmitAllKeeps(s, ps[1..], dump);
    }
  }

  lemma {:induction false} EmitAllAt(s: Session, ps: seq<Part>, dump: seq<DetailedResult> -> string, k: nat)
    requires k < |Keep(s, ps)|
    ensures Present(s, Keep(s, ps)[k])
    ensures k < |EmitAll(s, ps, dump)| && EmitAll(s, ps, dump)[k] == Section(s, Keep(s, ps)[k], dump)
  {
    EmitAllKeeps(s, ps, dump);
    var p := ps[0];
    var rest := ps[1..];
    var es, ks := EmitAll(s, rest, dump), Keep(s, rest);
    EmitAllKeeps(s, rest, dump);
    var e, kp := Emit(s, p, dump), if Present(s, p) then [p] else [];
    assert EmitAll(s, ps, dump) == e + es;
    assert Keep(s, ps) == kp + ks;
    AppendAt(e, es, k);
    AppendAt(kp, ks, k);
    if k >= |kp| {
      EmitAllAt(s, rest, dump, k - |kp|);
    }
  }

  lemma AppendAt<T>(x: seq<T>, y: seq<T>, k: nat)
    requires k < |x| + |y|
    ensures (x + y)[k] == if k < |x| then x[k] else y[k - |x|]
  {
  }

  /** The five appends are the conditional appends over `Parts`. */
  lemma SectionsAreEmitAll(s: Session, dump: seq<DetailedResult> -> string)
    ensures Sections(s, dump) == EmitAll(s, Parts, dump)
  {
    var p1 := [QuizPart, RecommendationsPart, CoverLetterPart, JdAnalysisPart];
    var p2 := [RecommendationsPart, CoverLetterPart, JdAnalysisPart];
    var p3 := [CoverLetterPart, JdAnalysisPart];
    var p4 := [JdAnalysisPart];
    assert Parts[1..] == p1 && p1[1..] == p2 && p2[1..] == p3 && p3[1..] == p4 && p4[1..] == [];
    assert EmitAll(s, p4, dump) == Emit(s, JdAnalysisPart, dump) + EmitAll(s, [], dump);
    assert EmitAll(s, p3, dump) == Emit(s, CoverLetterPart, dump) + EmitAll(s, p4, dump);
    assert EmitAll(s, p2, dump) == Emit(s, RecommendationsPart, dump) + EmitAll(s, p3, dump);
    assert EmitAll(s, p1, dump) == Emit(s, QuizPart, dump) + EmitAll(s, p2, dump);
    assert EmitAll(s, Parts, dump) == Emit(s, ResumePart, dump) + EmitAll(s, p1, dump);
  }

  /** The page's appends produce one section per present part, in report
      order, each its header followed by its body. */
  lemma SectionsFollowParts(s: Session, dump: seq<DetailedResult> -> string)
    ensures |Sections(s, dump)| == |PresentParts(s)|
    ensures forall k :: 0 <= k < |PresentParts(s)| ==>
      Present(s, PresentParts(s)[k]) && Sections(s, dump)[k] == Section(s, PresentParts(s)[k], dump)
  {
    SectionsAreEmitAll(s, dump);
    EmitAllKeeps(s, Parts, dump);
    forall k | 0 <= k < |PresentParts(s)|
      ensures Present(s, PresentParts(s)[k]) && Sections(s, dump)[k] == Section(s, PresentParts(s)[k], dump)
    {
      EmitAllAt(s, Parts, dump, k);
    }
  }

  /** Section `k` sits whole in the report at offset `Offset(Separator, Sections(s, dump), k)`. */
  lemma ReportSectionAt(s: Session, dump: seq<DetailedResult> -> string, k: nat)
    requires k < |Sections(s, dump)|
    ensures Offset(Separator, Sections(s, dump), k) + |Sections(s, dump)[k]| <= |ReportText(s, dump)|
    ensures ReportText(s, dump)[Offset(Separator, Sections(s, dump), k)..
                                Offset(Separator, Sections(s, dump), k) + |Sections(s, dump)[k]|]
         == Sections(s, dump)[k]
  {
    JoinPart(Separator, Sections(s, dump), k);
  }

  /** A blank line, and nothing else, separates each section from the next. */
  lemma ReportSeparatorAt(s: Session, dump: seq<DetailedResult> -> string, k: nat)
    requires k + 1 < |Sections(s, dump)|
    ensures Offset(Separator, Sections(s, dump), k + 1) <= |ReportText(s, dump)|
    ensures ReportText(s, dump)[Offset(Separator, Sections(s, dump), k) + |Sections(s, dump)[k]|..
                                Offset(Separator, Sections(s, dump), k + 1)]
         == Separator
  {
    JoinSeparator(Separator, Sections(s, dump), k);
  }

  /** The report ends where its last section ends. */
  lemma ReportLength(s: Session, dump: seq<DetailedResult> -> string)
    requires |PresentParts(s)| > 0
    ensures var secs := Sections(s, dump);
      |ReportText(s, dump)| == Offset(Separator, secs, |secs| - 1) + |secs[|secs| - 1]|
  {
    SectionsFollowParts(s, dump);
    JoinLength(Separator, Sections(s, dump));
  }

  /** No two headers start alike: a section never opens with the header of a
      different part. */
  lemma HeadersPrefixFree(p: Part, q: Part, t: string)
    requires p != q
    ensures !(Header(p) <= Header(q) + t)
  {
    var i := |"----- "|;
    assert Header(p)[i] == Title(p)[0];
    assert (Header(q) + t)[i] == Title(q)[0];
  }

  /** An absent part leaves no header: no section of the report opens with it. */
  lemma AbsentPartHasNoSection(s: Session, dump: seq<DetailedResult> -> string, p: Part)
    requires !Present(s, p)
    ensures forall k :: 0 <= k < |Sections(s, dump)| ==> !(Header(p) <= Sections(s, dump)[k])
  {
    SectionsFollowParts(s, dump);
    PresentPartsExact(s);
    forall k | 0 <= k < |Sections(s, dump)| ensures !(Header(p) <= Sections(s, dump)[k]) {
      var q := PresentParts(s)[k];
      assert q in PresentParts(s);
      HeadersPrefixFree(p, q, Body(s, q, dump));
    }
  }

  /** The report is empty exactly when nothing is stored. */
  lemma ReportEmptyIff(s: Session, dump: seq<DetailedResult> -> string)
    ensures ReportText(s, dump) == "" <==> s == Fresh
  {
    SectionsFollowParts(s, dump);
    PresentPartsExact(s);
    var secs := Sections(s, dump);
    forall k | 0 <= k < |secs| ensures |secs[k]| > 0 {
      assert |Header(PresentParts(s)[k])| > 0;
    }
    JoinEmptyIff(Separator, secs);
    if s != Fresh {
      var p :| p in Parts && Present(s, p);
      assert p in PresentParts(s);
    }
  }

  /** With only the resume text and a cover letter stored, the report is the
      resume section, a blank line, and the cover-letter section. */
  lemma ResumeAndCoverLetter(resume: string, letter: string, dump: seq<DetailedResult> -> string)
    ensures ReportText(Session(Some(resume), None, None, Some(letter), None), dump)
         == "----- RESUME TEXT -----\n" + resume + "\n\n" + "----- COVER LETTER -----\n" + letter
  {
    var a := Header(ResumePart) + resume;
    var b := Header(CoverLetterPart) + letter;
    ResumeAndCoverLetterSections(resume, letter, dump);
    JoinTwo(Separator, a, b);
    ResumeAndCoverLetterHeaders();
  }

  lemma ResumeAndCoverLetterSections(resume: string, letter: string, dump: seq<DetailedResult> -> string)
    ensures Sections(Session(Some(resume), None, None, Some(letter), None), dump)
         == [Header(ResumePart) + resume, Header(CoverLetterPart) + letter]
  {
    var s := Session(Some(resume), None, None, Some(letter), None);
    assert Emit(s, ResumePart, dump) == [Header(ResumePart) + resume];
    assert Emit(s, CoverLetterPart, dump) == [Header(CoverLetterPart) + letter];
  }

  lemma ResumeAndCoverLetterHeaders()
    ensures Header(ResumePart) == "----- RESUME TEXT -----\n"
    ensures Header(CoverLetterPart) == "----- COVER LETTER -----\n"
  {
  }
}
