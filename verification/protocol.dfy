/** The decision reply end to end: the text the Python server writes for a
    decision, framed and sent, is read back by the Java gateway as the same
    text, and the gateway's parser recovers the time, the CPU percent and
    the action from it.

    Floats are written by the parameter `render`; the round trip holds for
    every rendering that writes each figure as a finite decimal denoting
    exactly that figure.
 */
module Protocol {
  import opened Wrappers
  import opened JavaText
  import opened Entities
  import opened JobManager
  import opened EnvHelper
  import opened StrategyBase
  import opened Framing
  import opened SocketServer

  /** The decimal written for a figure denotes it. */
  predicate Renders(render: real -> string, x: real, d: Decimal) {
    ValidDecimal(d) && render(x) == RenderDecimal(d) && DecimalValue(d) == x
  }

  /** Every number of the action fits a Java int. */
  predicate Int32Action(a: Action) {
    forall k :: 0 <= k < |ActionInts(a)| ==> Int32(ActionInts(a)[k])
  }

  /** The time the gateway records for a reply's time figure. */
  function RecordedTime(m: Manager, time: real, considerGatewayTime: bool): real
    requires m.simMips != 0.0
  {
    ParseComputationTime(m, if considerGatewayTime then time else 0.0)
  }

  /** The gateway decodes a decision reply into exactly the figures and
      the action the agent sent, registering the sample at the clock. */
  lemma DecisionRoundTrip(m: Manager, time: real, cpu: real, a: Action, render: real -> string,
                          dt: Decimal, dc: Decimal, considerGatewayTime: bool, clock: real)
    requires m.simMips != 0.0 && ValidEpisode(m)
    requires Renders(render, time, dt) && Renders(render, cpu, dc) && Int32Action(a)
    ensures var d := ParseDecision(m, ReplyText(Decision(time, cpu, a), render), considerGatewayTime, clock);
      && d.result == Ok(DecisionResult(RecordedTime(m, time, considerGatewayTime), ActionInts(a)))
      && d.sample == Some(Sample(clock, RecordedTime(m, time, considerGatewayTime), cpu))
  {
    var ints := ActionInts(a);
    var costPart := Join([render(time), render(cpu)], ",");
    var actionPart := FormatInts(ints);
    ReplySplits(dt, dc, ints);
    CostRoundTrip(dt, dc, considerGatewayTime);
    ParseTrimmedIntsRoundTrip(ints);
    ParseDecisionOf(m, ReplyText(Decision(time, cpu, a), render), considerGatewayTime, clock,
                    costPart, actionPart, if considerGatewayTime then time else 0.0, cpu, ints);
  }

  /** A reply "T,CdA" splits on 'd' into "T,C" and A, and "T,C" on ','
      into T and C. */
  lemma ReplySplits(dt: Decimal, dc: Decimal, ints: seq<int>)
    requires ValidDecimal(dt) && ValidDecimal(dc) && |ints| > 0
    ensures var costPart := Join([RenderDecimal(dt), RenderDecimal(dc)], ",");
      && costPart == RenderDecimal(dt) + "," + RenderDecimal(dc)
      && JavaSplit(costPart, ",") == [RenderDecimal(dt), RenderDecimal(dc)]
      && JavaSplit(costPart + "d" + FormatInts(ints), "d") == [costPart, FormatInts(ints)]
      && JavaSplit(FormatInts(ints), ",") == IntTexts(ints)
  {
    var costPart := Join([RenderDecimal(dt), RenderDecimal(dc)], ",");
    var actionPart := FormatInts(ints);
    CostSplits(dt, dc);
    ActionText(ints);
    SplitTwo(costPart, actionPart, "d");
  }

  /** "T,C" splits on ',' into T and C and holds no 'd'. */
  lemma CostSplits(dt: Decimal, dc: Decimal)
    requires ValidDecimal(dt) && ValidDecimal(dc)
    ensures var costPart := Join([RenderDecimal(dt), RenderDecimal(dc)], ",");
      && costPart == RenderDecimal(dt) + "," + RenderDecimal(dc)
      && JavaSplit(costPart, ",") == [RenderDecimal(dt), RenderDecimal(dc)]
      && 'd' !in costPart
  {
    var rt := RenderDecimal(dt);
    var rc := RenderDecimal(dc);
    DecimalTextChars(dt, ',');
    DecimalTextChars(dc, ',');
    DecimalTextChars(dt, 'd');
    DecimalTextChars(dc, 'd');
    SplitTwo(rt, rc, ",");
  }

  /** The cost part reads back as the figures written, the time only when
      the gateway takes its own time into account. */
  lemma CostRoundTrip(dt: Decimal, dc: Decimal, considerGatewayTime: bool)
    requires ValidDecimal(dt) && ValidDecimal(dc)
    ensures ParseCost([RenderDecimal(dt), RenderDecimal(dc)], considerGatewayTime)
         == Ok((if considerGatewayTime then DecimalValue(dt) else 0.0, DecimalValue(dc)))
  {
    DecimalRoundTrip(dt);
    DecimalRoundTrip(dc);
    ParseCostOf(RenderDecimal(dt), RenderDecimal(dc), DecimalValue(dt), DecimalValue(dc), considerGatewayTime);
  }

  /** ParseCost on two tokens that each read as a double. */
  lemma ParseCostOf(a: string, b: string, x: real, y: real, considerGatewayTime: bool)
    requires ParseDouble(a) == Ok(x) && ParseDouble(b) == Ok(y)
    ensures ParseCost([a, b], considerGatewayTime) == Ok((if considerGatewayTime then x else 0.0, y))
  {
  }

  /** ParseDecision on a reply whose pieces parse. */
  lemma ParseDecisionOf(m: Manager, text: string, considerGatewayTime: bool, clock: real,
                        costPart: string, actionPart: string, time: real, cpu: real, ints: seq<int>)
    requires m.simMips != 0.0 && ValidEpisode(m)
    requires JavaSplit(text, "d") == [costPart, actionPart]
    requires ParseCost(JavaSplit(costPart, ","), considerGatewayTime) == Ok((time, cpu))
    requires ParseTrimmedInts(JavaSplit(actionPart, ",")) == Ok(ints)
    ensures var d := ParseDecision(m, text, considerGatewayTime, clock);
      && d.result == Ok(DecisionResult(ParseComputationTime(m, time), ints))
      && d.sample == Some(Sample(clock, ParseComputationTime(m, time), cpu))
  {
  }

  /** Two separator-free pieces, the second non-empty, join and split back. */
  lemma SplitTwo(x: string, y: string, sep: string)
    requires |sep| > 0 && sep[0] !in x && sep[0] !in y && y != ""
    ensures Join([x, y], sep) == x + sep + y
    ensures JavaSplit(x + sep + y, sep) == [x, y]
  {
    JoinTwo(x, y, sep);
    SplitJoin([x, y], sep);
  }

  lemma JoinTwo(x: string, y: string, sep: string)
    ensures Join([x, y], sep) == x + sep + y
  {
    assert [x, y][1..] == [y];
  }

  /** The action text splits back into its numbers and holds no 'd'. */
  lemma ActionText(ints: seq<int>)
    requires |ints| > 0
    ensures JavaSplit(FormatInts(ints), ",") == IntTexts(ints)
    ensures 'd' !in FormatInts(ints) && FormatInts(ints) != ""
  {
    var texts := IntTexts(ints);
    forall k | 0 <= k < |texts|
      ensures ',' !in texts[k] && 'd' !in texts[k]
    {
      IntTextChars(ints[k], ',');
      IntTextChars(ints[k], 'd');
    }
    SplitJoin(texts, ",");
    JoinAvoids(texts, ",", 'd');
  }

  /** A decision reply is plain ASCII: one byte per character, every
      character in the Basic Multilingual Plane. */
  lemma ReplyAscii(time: real, cpu: real, a: Action, render: real -> string, dt: Decimal, dc: Decimal)
    requires Renders(render, time, dt) && Renders(render, cpu, dc)
    ensures var text := ReplyText(Decision(time, cpu, a), render);
      forall k :: 0 <= k < |text| ==> text[k] as int < 0x80
  {
    var text := ReplyText(Decision(time, cpu, a), render);
    var texts := IntTexts(ActionInts(a));
    forall k | 0 <= k < |text|
      ensures text[k] as int < 0x80
    {
      var c := text[k];
      if c as int >= 0x80 {
        DecimalTextChars(dt, c);
        DecimalTextChars(dc, c);
        forall j | 0 <= j < |texts|
          ensures c !in texts[j]
        {
          IntTextChars(ActionInts(a)[j], c);
        }
        JoinAvoids(texts, ",", c);
        assert false;
      }
    }
  }

  /** What the gateway reads off the wire for a decision reply is the
      reply's text, and it parses into the figures and the action sent;
      anything after the frame is left for the next read. */
  lemma DecisionOverTheWire(m: Manager, time: real, cpu: real, a: Action, render: real -> string,
                            dt: Decimal, dc: Decimal, considerGatewayTime: bool, clock: real, rest: seq<byte>)
    requires m.simMips != 0.0 && ValidEpisode(m)
    requires Renders(render, time, dt) && Renders(render, cpu, dc) && Int32Action(a)
    requires |ReplyText(Decision(time, cpu, a), render)| < LENGTH_LIMIT
    ensures var text := ReplyText(Decision(time, cpu, a), render);
      && Bmp(text) && Frame(text).Ok?
      && ReadUtf(Frame(text).value + rest) == Ok((Units(text), rest))
      && ParseDecision(m, text, considerGatewayTime, clock).result
         == Ok(DecisionResult(RecordedTime(m, time, considerGatewayTime), ActionInts(a)))
  {
    var text := ReplyText(Decision(time, cpu, a), render);
    ReplyAscii(time, cpu, a, render, dt, dc);
    AsciiLength(text);
    FrameRoundTrip(text, rest);
    DecisionRoundTrip(m, time, cpu, a, render, dt, dc, considerGatewayTime, clock);
  }
}
