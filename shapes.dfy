/**
 * The shape renderer of lib/shapes.js: a `Shape` object holding five string
 * fields, its setters, and the SVG text it renders. The four subclasses
 * (Square, Triangle, Circle, Diamond) differ only in `render()`, so here they
 * are one class whose `kind` is fixed at construction.
 */
module Shapes {
  import opened Wrappers

  /** The four subclasses of `Shape`. */
  datatype Kind = Square | Triangle | Circle | Diamond

  /** The five fields of a `Shape`, named as the object names them
      (`text`, `textColour`, `logoFontFamily`, `logoTextSize`, `color`). */
  datatype Spec = Spec(text: string, textColour: string, fontFamily: string, textSize: string, color: string)

  /** The fields of a shape built without a specification. */
  const Defaults := Spec("", "white", "Arial", "70", "blue")

  /** The fixed part of each variant's fragment, up to the fill colour. The
      literals are split where the variants first differ: after the element
      name, and for the two polygons after the first digit of the second point. */
  function Geometry(k: Kind): string
  {
    match k
    case Square => "<rect" + " x=\"68\" y=\"18\" width=\"164\" height=\"164\" fill=\""
    case Triangle => "<polygon" + " points=\"150,18 244,1" + "82 56,182\" fill=\""
    case Circle => "<circle" + " cx=\"150\" cy=\"100\" r=\"82\" fill=\""
    case Diamond => "<polygon" + " points=\"150,18 244,1" + "00 150,182 56,100\" fill=\""
  }

  /** What every fragment ends with, after the fill colour. */
  const FillEnd := "\" />"

  /** `render()` of the variant `k` whose `color` field is `color`: the fixed
      geometry, then the colour, then the closing of the element. */
  function ShapeFragment(k: Kind, color: string): (r: string)
    ensures |r| == |Geometry(k)| + |color| + |FillEnd|
    ensures r[..|Geometry(k)|] == Geometry(k)
    ensures r[|Geometry(k)|..|r| - |FillEnd|] == color
    ensures r[|r| - |FillEnd|..] == FillEnd
  {
    Geometry(k) + color + FillEnd
  }

  /** Reads the fill colour back from a fragment of the variant `k`. */
  function FillOf(k: Kind, fragment: string): Option<string>
  {
    var g := Geometry(k);
    if |fragment| >= |g| + |FillEnd| && fragment[..|g|] == g && fragment[|fragment| - |FillEnd|..] == FillEnd
    then Some(fragment[|g|..|fragment| - |FillEnd|])
    else None
  }

  /** Reading the fill back from a rendered fragment gives the colour. */
  lemma FillOfShapeFragment(k: Kind, color: string)
    ensures FillOf(k, ShapeFragment(k, color)) == Some(color)
  {
  }

  /** A fragment whose fill reads back as `color` is exactly the rendering of `color`. */
  lemma ShapeFragmentOfFill(k: Kind, fragment: string, color: string)
    requires FillOf(k, fragment) == Some(color)
    ensures ShapeFragment(k, color) == fragment
  {
    var g, n := Geometry(k), |fragment|;
    assert fragment == fragment[..|g|] + fragment[|g|..n - |FillEnd|] + fragment[n - |FillEnd|..];
  }

  /** An index at which the geometries of two different variants differ. */
  function DifferAt(k1: Kind, k2: Kind): (i: nat)
    requires k1 != k2
    ensures i < |Geometry(k1)| && i < |Geometry(k2)| && Geometry(k1)[i] != Geometry(k2)[i]
  {
    if (k1 == Triangle && k2 == Diamond) || (k1 == Diamond && k2 == Triangle) then 29 else 1
  }

  /** Different variants, or different colours, never render the same fragment. */
  lemma ShapeFragmentInjective(k1: Kind, c1: string, k2: Kind, c2: string)
    ensures ShapeFragment(k1, c1) == ShapeFragment(k2, c2) ==> k1 == k2 && c1 == c2
  {
    var r1, r2 := ShapeFragment(k1, c1), ShapeFragment(k2, c2);
    if k1 != k2 {
      var i := DifferAt(k1, k2);
      assert r1[i] == Geometry(k1)[i] && r2[i] == Geometry(k2)[i];
    }
  }

  /** The fill of the text element: the text colour, or white when it is empty. */
  function FillColour(textColour: string): (c: string)
    ensures c != ""
    ensures textColour != "" ==> c == textColour
    ensures textColour == "" ==> c == "white"
  {
    if textColour != "" then textColour else "white"
  }

  /** The start tag of the centred text element. */
  function TextOpen(s: Spec): string
  {
    "<text x=\"50%\" y=\"50%\" font-family=\"" + s.fontFamily + "\" font-size=\"" + s.textSize
    + "px\" fill=\"" + FillColour(s.textColour)
    + "\" text-anchor=\"middle\" alignment-baseline=\"middle\" dominant-baseline=\"central\">"
  }

  const TextClose := "</text>"

  /** `generateSVGText()`: nothing for empty text, otherwise one centred text element. */
  function TextFragment(s: Spec): (r: string)
    ensures r == "" <==> s.text == ""
    ensures s.text != "" ==> |r| == |TextOpen(s)| + |s.text| + |TextClose|
    ensures s.text != "" ==> r[..|TextOpen(s)|] == TextOpen(s) && r[|TextOpen(s)|..] == s.text + TextClose
  {
    if s.text != "" then TextOpen(s) + s.text + TextClose else ""
  }

  /** The `<svg>` wrapper around both fragments. */
  const SvgOpen := "<svg xmlns=\"http://www.w3.org/2000/svg\" width=\"300\" height=\"200\">"
  const SvgClose := "</svg>"

  /** `renderLogo()`: the shape fragment, then the text fragment, inside the fixed wrapper. */
  function LogoDocument(k: Kind, s: Spec): (r: string)
    ensures |r| >= |SvgOpen| + |SvgClose|
    ensures r[..|SvgOpen|] == SvgOpen && r[|r| - |SvgClose|..] == SvgClose
    ensures r[|SvgOpen|..|r| - |SvgClose|] == ShapeFragment(k, s.color) + TextFragment(s)
    ensures s.text == "" ==> r == SvgOpen + ShapeFragment(k, s.color) + SvgClose
  {
    var body := ShapeFragment(k, s.color) + TextFragment(s);
    Wrapped(SvgOpen, body, SvgClose);
    SvgOpen + body + SvgClose
  }

  /** The three parts of `a + b + c` can be sliced back out. */
  lemma Wrapped(a: string, b: string, c: string)
    ensures (a + b + c)[..|a|] == a
    ensures (a + b + c)[|a|..|a| + |b|] == b
    ensures (a + b + c)[|a| + |b|..] == c
  {
  }

  /** The text element does not depend on the shape colour. */
  lemma TextFragmentIgnoresColor(s: Spec, color: string)
    ensures TextFragment(s.(color := color)) == TextFragment(s)
  {
  }

  /** The variant's geometry stands right after the `<svg>` start tag. */
  lemma LogoDocumentAt(k: Kind, s: Spec, i: nat)
    requires i < |Geometry(k)|
    ensures |SvgOpen| + i < |LogoDocument(k, s)|
    ensures LogoDocument(k, s)[|SvgOpen| + i] == Geometry(k)[i]
  {
    var d, f := LogoDocument(k, s), ShapeFragment(k, s.color);
    var body := d[|SvgOpen|..|d| - |SvgClose|];
    assert body == f + TextFragment(s);
    assert body[i] == f[i] == f[..|Geometry(k)|][i];
    assert d[|SvgOpen| + i] == body[i];
  }

  /** The document determines the variant that rendered it. */
  lemma LogoDocumentDeterminesKind(k1: Kind, s1: Spec, k2: Kind, s2: Spec)
    ensures LogoDocument(k1, s1) == LogoDocument(k2, s2) ==> k1 == k2
  {
    if k1 != k2 {
      var i := DifferAt(k1, k2);
      LogoDocumentAt(k1, s1, i);
      LogoDocumentAt(k2, s2, i);
    }
  }

  /** A `Shape` object: one of the four variants, with five mutable fields. */
  class Shape {
    const kind: Kind
    var text: string
    var textColour: string
    var logoFontFamily: string
    var logoTextSize: string
    var color: string

    /** The current values of the five fields. */
    function State(): Spec
      reads this
    {
      Spec(text, textColour, logoFontFamily, logoTextSize, color)
    }

    /** `new Square()` etc. take the defaults; `new Square(spec)` copies the spec. */
    constructor (kind: Kind, specification: Option<Spec>)
      ensures this.kind == kind
      ensures specification.None? ==> State() == Defaults
      ensures specification.Some? ==> State() == specification.value
    {
      this.kind := kind;
      var s := if specification.None? then Defaults else specification.value;
      text := s.text;
      textColour := s.textColour;
      logoFontFamily := s.fontFamily;
      logoTextSize := s.textSize;
      color := s.color;
    }

    method SetText(t: string)
      modifies this`text
      ensures State() == old(State()).(text := t)
    {
      text := t;
    }

    method SetTextColour(colour: string)
      modifies this`textColour
      ensures State() == old(State()).(textColour := colour)
    {
      textColour := colour;
    }

    method SetFontFamily(fontFamily: string)
      modifies this`logoFontFamily
      ensures State() == old(State()).(fontFamily := fontFamily)
    {
      logoFontFamily := fontFamily;
    }

    method SetTextSize(size: string)
      modifies this`logoTextSize
      ensures State() == old(State()).(textSize := size)
    {
      logoTextSize := size;
    }

    method SetColor(shapeColour: string)
      modifies this`color
      ensures State() == old(State()).(color := shapeColour)
    {
      color := shapeColour;
    }

    /** `render()`: the variant's fragment, filled with the current colour. */
    method Render() returns (fragment: string)
      ensures fragment == ShapeFragment(kind, color)
      ensures FillOf(kind, fragment) == Some(color)
    {
      fragment := Geometry(kind) + color + FillEnd;
    }

    /** `generateSVGText()` over the current fields. */
    method GenerateSvgText() returns (element: string)
      ensures element == TextFragment(State())
      ensures element == "" <==> text == ""
    {
      if text != "" {
        var fill := if textColour != "" then textColour else "white";
        element := "<text x=\"50%\" y=\"50%\" font-family=\"" + logoFontFamily + "\" font-size=\"" + logoTextSize
          + "px\" fill=\"" + fill
          + "\" text-anchor=\"middle\" alignment-baseline=\"middle\" dominant-baseline=\"central\">"
          + text + TextClose;
      } else {
        element := "";
      }
    }

    /** `renderLogo()`: the wrapped document of the current fields. */
    method RenderLogo() returns (svg: string)
      ensures svg == LogoDocument(kind, State())
    {
      var shapeSvg := Render();
      var textSvg := GenerateSvgText();
      svg := SvgOpen + shapeSvg + textSvg + SvgClose;
    }
  }
}
