/** From tokens to text: the parser and the renderer together. */
module Pipeline {
  import opened Options
  import opened Json
  import opened Bytecodes
  import opened Templates
  import opened Compiler
  import opened Machine
  import opened Tokens
  import ParserSpec
  import TemplateParser
  import Printer
  import ParserCorrectness
  import Correctness
  import Swaps

  /** A template the grammar can write and in whose code no `default` is left without an operand. */
  ghost predicate Runnable(env: Env, b: Body) {
    && Printer.PrintableBody(b)
    && SoundBody(env.pointerNotation, b)
    && BodySize(env.pointerNotation, b) < 0x4000_0000
  }

  /** Text and status of a rendering with this meaning. */
  function Outcome(meaning: Output): (string, Status) {
    (meaning.text, if meaning.ok then Running else Failed)
  }

  /**
   * Parsing the written template and rendering the code prints the meaning of what the template actually does, which is
   * the template's own meaning when it fits.
   */
  method RenderTokens(env: Env, tokens: seq<Token>, root: Json, ghost b: Body) returns (out: string, status: Status)
    requires Runnable(env, b) && tokens == Printer.PrintBody(b)
    ensures (out, status) == Outcome(Render(env, root, root, ActualBody(env.pointerNotation, b)))
    ensures FitsBody(env.pointerNotation, b) ==> (out, status) == Outcome(Render(env, root, root, b))
  {
    hide Run, Step, BodyCode, BodySize, FitsBody, SoundBody, ActualBody, Render, Printer.PrintBody, ParserSpec.ParseInto;
    var parser := new TemplateParser.Parser(env.pointerNotation, tokens);
    var verdict := parser.ParseInto();
    SoundCompiles(env.pointerNotation, b);
    ParserCorrectness.ParsesTemplate(env.pointerNotation, b);
    assert parser.code == BodyCode(env.pointerNotation, b, 0);
    ghost var steps := Correctness.CodeDoesActual(env, root, b);
    var renderer := new Renderer(env);
    out, status := renderer.RenderTo(parser.code, root, steps);
    if FitsBody(env.pointerNotation, b) { Swaps.FitsSoundBody(env.pointerNotation, b); }
  }
}
