/**
 * What `init` in index.js does once the prompts are answered: convert both
 * colours to their standard names, choose the shape from its lower-cased name,
 * and produce the file to write. Prompting, printing and the write itself are
 * not modelled; the file is returned instead of written.
 */
module Cli {
  import opened Wrappers
  import opened JsString
  import opened Shapes
  import opened Colours

  /** The answers the prompts collect, keyed as the program keys them. */
  datatype Answers = Answers(
    logoText: string, logoFontFamily: string, logoTextSize: string, logoTextColour: string,
    logoShape: string, logoShapeColour: string, logoFileName: string)

  /** The name each variant is chosen by. */
  function KindName(k: Kind): string
  {
    match k
    case Circle => "circle"
    case Triangle => "triangle"
    case Square => "square"
    case Diamond => "diamond"
  }

  /** The `switch` on the lower-cased shape name: one of the four variants, or
      nothing for any other name. */
  function ShapeKind(name: string): (r: Option<Kind>)
    ensures forall k: Kind :: r == Some(k) <==> ToLower(name) == KindName(k)
  {
    var lower := ToLower(name);
    if lower == "circle" then Some(Circle)
    else if lower == "triangle" then Some(Triangle)
    else if lower == "square" then Some(Square)
    else if lower == "diamond" then Some(Diamond)
    else None
  }

  /** Each variant is chosen by its own name. */
  lemma ShapeKindOfName(k: Kind)
    ensures ShapeKind(KindName(k)) == Some(k)
  {
    var name := KindName(k);
    assert forall i | 0 <= i < |name| :: 'a' <= name[i] <= 'z';
    assert ToLower(name) == name;
  }

  /** The choice ignores case: `Circle` and `CIRCLE` choose the circle. */
  lemma ShapeKindIgnoresCase(name: string)
    ensures ShapeKind(ToLower(name)) == ShapeKind(name)
  {
    ToLowerIdempotent(name);
  }

  /** The answers with both colours converted to their standard names, as
      `init` overwrites them before building the shape. */
  function WithStandardColours(list: seq<string>, answers: Answers): Answers
  {
    answers.(logoTextColour := ConvertColourToStandardName(list, answers.logoTextColour),
             logoShapeColour := ConvertColourToStandardName(list, answers.logoShapeColour))
  }

  /** The five fields the `Shape` constructor copies from the answers. */
  function SpecOf(answers: Answers): Spec
  {
    Spec(answers.logoText, answers.logoTextColour, answers.logoFontFamily, answers.logoTextSize, answers.logoShapeColour)
  }

  /** The directory the logo is saved under. */
  const SaveDirectory := "./examples/"

  /** The file `init` writes: where, and what. */
  datatype LogoFile = LogoFile(path: string, contents: string)

  /** `init` after the prompts: nothing is written for an unknown shape;
      otherwise the rendered logo, with standard colour names, goes to the
      answered file name under the save directory. */
  method Init(list: seq<string>, answers: Answers) returns (written: Option<LogoFile>)
    ensures written.None? <==> ShapeKind(answers.logoShape).None?
    ensures written.Some? ==> written.value.path == SaveDirectory + answers.logoFileName
    ensures written.Some? ==>
      written.value.contents == LogoDocument(ShapeKind(answers.logoShape).value, SpecOf(WithStandardColours(list, answers)))
  {
    var converted := answers;
    converted := converted.(logoTextColour := ConvertColourToStandardName(list, converted.logoTextColour));
    converted := converted.(logoShapeColour := ConvertColourToStandardName(list, converted.logoShapeColour));
    var kind := ShapeKind(converted.logoShape);
    if kind.None? {
      return None;
    }
    var logo := new Shape(kind.value, Some(SpecOf(converted)));
    var svg := logo.RenderLogo();
    written := Some(LogoFile(SaveDirectory + converted.logoFileName, svg));
  }
}
