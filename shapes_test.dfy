/**
 * The cases of lib/shapes.test.js as client methods: each builds a shape,
 * sets its fields and promises the exact text the test expects. The expected
 * text is written in the pieces the renderer concatenates.
 */
module ShapesTest {
  import opened Wrappers
  import opened Shapes

  method RenderSquare() returns (r: string)
    ensures r == "<rect" + " x=\"68\" y=\"18\" width=\"164\" height=\"164\" fill=\"" + "blue" + "\" />"
  {
    var shape := new Shape(Square, None);
    shape.SetColor("blue");
    r := shape.Render();
  }

  method RenderTriangle() returns (r: string)
    ensures r == "<polygon" + " points=\"150,18 244,1" + "82 56,182\" fill=\"" + "red" + "\" />"
  {
    var shape := new Shape(Triangle, None);
    shape.SetColor("red");
    r := shape.Render();
  }

  method RenderCircle() returns (r: string)
    ensures r == "<circle" + " cx=\"150\" cy=\"100\" r=\"82\" fill=\"" + "green" + "\" />"
  {
    var shape := new Shape(Circle, None);
    shape.SetColor("green");
    r := shape.Render();
  }

  method RenderDiamond() returns (r: string)
    ensures r == "<polygon" + " points=\"150,18 244,1" + "00 150,182 56,100\" fill=\"" + "#ffff00" + "\" />"
  {
    var shape := new Shape(Diamond, None);
    shape.SetColor("#ffff00");
    r := shape.Render();
  }

  method RenderDiamondWithText() returns (r: string)
    ensures r == "<svg xmlns=\"http://www.w3.org/2000/svg\" width=\"300\" height=\"200\">"
      + (("<polygon" + " points=\"150,18 244,1" + "00 150,182 56,100\" fill=\"" + "#ffff00" + "\" />")
      + ("<text x=\"50%\" y=\"50%\" font-family=\"" + "Arial" + "\" font-size=\"" + "40" + "px\" fill=\"" + "red"
      + "\" text-anchor=\"middle\" alignment-baseline=\"middle\" dominant-baseline=\"central\">" + "ABC" + "</text>"))
      + "</svg>"
  {
    var shape := new Shape(Diamond, Some(Spec("ABC", "red", "Arial", "40", "#ffff00")));
    r := shape.RenderLogo();
  }

  /** A shape built without a specification renders the default blue shape and no text. */
  method RenderDefaultLogo(k: Kind) returns (r: string)
    ensures r == SvgOpen + ShapeFragment(k, "blue") + SvgClose
  {
    var shape := new Shape(k, None);
    r := shape.RenderLogo();
  }
}
