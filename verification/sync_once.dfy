/** A parser that is expensive to build is built lazily, on the first call of
    Parse, behind a `sync.Once`. Only the sequential meaning is modelled:
    calls happen one after another, the once-guard is a flag, and the
    package-level variables are threaded through as an explicit state. */
module SyncOnce {
  import opened GoTypes

  /** `SCPI`, the one implementation of `SlowComplicatedParser`. */
  datatype SCPI = SCPI {
    /** `SCPI.Parse`: a one-byte prefix of any input longer than one byte,
        and the empty string for shorter input, a single byte included. Go
        slices strings by bytes, so the input is its byte sequence. */
    function Parse(input: seq<byte>): (r: seq<byte>)
      ensures |r| <= 1 && r <= input
      ensures |r| == 1 <==> |input| > 1
    {
      if |input| > 1 then input[0..1] else []
    }
  }

  /** The package-level variables: the `sync.Once` (done or not), the parser
      it guards (nil until set), and how many times `initParser` has run,
      which is how many times "initializing!" has been printed. */
  datatype Globals = Globals(onceDone: bool, parser: Option<SCPI>, inits: nat)

  /** The state before the first call. */
  const Start: Globals := Globals(false, None, 0)

  /** The parser is set exactly when the once-guard has fired, and the
      initialiser has run once if it has fired and never otherwise. */
  predicate Valid(g: Globals)
  {
    && (g.onceDone <==> g.parser.Some?)
    && g.inits == (if g.onceDone then 1 else 0)
  }

  /** `parser = initParser()`: prints "initializing!" (one more run counted)
      and stores a new SCPI as the parser; the once-guard is not its concern. */
  function InitParser(g: Globals): (g': Globals)
    ensures g'.parser == Some(SCPI)
    ensures g'.inits == g.inits + 1
    ensures g'.onceDone == g.onceDone
  {
    g.(parser := Some(SCPI), inits := g.inits + 1)
  }

  /** `once.Do(func() { parser = initParser() })`: runs the initialiser only
      if the guard has not fired yet. */
  function OnceDo(g: Globals): (g': Globals)
    requires Valid(g)
    ensures Valid(g') && g'.onceDone
    ensures g.onceDone ==> g' == g
    ensures !g.onceDone ==> g'.inits == g.inits + 1
  {
    if g.onceDone then g else InitParser(g).(onceDone := true)
  }

  /** The package-level `Parse`: initialise once, then delegate to the
      parser. After any call the initialiser has run exactly once. */
  function Parse(g: Globals, dataToParse: seq<byte>): (r: (Globals, seq<byte>))
    requires Valid(g)
    ensures Valid(r.0) && r.0.onceDone && r.0.inits == 1
    ensures g.onceDone ==> r.0 == g
    ensures r.1 == SCPI().Parse(dataToParse)
  {
    var g' := OnceDo(g);
    (g', g'.parser.value.Parse(dataToParse))
  }

  /** A sequence of calls, one after another, collecting their results. */
  function ParseAll(g: Globals, inputs: seq<seq<byte>>): (r: (Globals, seq<seq<byte>>))
    requires Valid(g)
    ensures Valid(r.0)
    decreases |inputs|
  {
    if |inputs| == 0 then (g, [])
    else
      var (g1, out) := Parse(g, inputs[0]);
      var (g2, outs) := ParseAll(g1, inputs[1..]);
      (g2, [out] + outs)
  }

  /** Whatever the calls, each result is what the parser makes of its own
      input, and the initialiser has run once if there was any call and
      never if there was none. */
  lemma {:induction false} ParseAllInitialisesOnce(g: Globals, inputs: seq<seq<byte>>)
    requires Valid(g)
    ensures var (g', outs) := ParseAll(g, inputs);
      && |outs| == |inputs|
      && (forall i :: 0 <= i < |inputs| ==> outs[i] == SCPI().Parse(inputs[i]))
      && g'.inits == (if |inputs| == 0 then g.inits else 1)
    decreases |inputs|
  {
    if |inputs| > 0 {
      var (g1, out) := Parse(g, inputs[0]);
      ParseAllInitialisesOnce(g1, inputs[1..]);
      var (g2, outs) := ParseAll(g1, inputs[1..]);
      assert ParseAll(g, inputs).1 == [out] + outs;
      forall i | 0 <= i < |inputs| ensures ([out] + outs)[i] == SCPI().Parse(inputs[i]) {
        if i > 0 {
          assert inputs[1..][i - 1] == inputs[i];
        }
      }
    }
  }

  const Hello: seq<byte> := [104, 101, 108, 108, 111]
  const Goodbye: seq<byte> := [103, 111, 111, 100, 98, 121, 101]

  /** Hello and Goodbye are the bytes of the program's two string literals. */
  lemma LiteralBytes()
    ensures Utf8("hello") == Hello
    ensures Utf8("goodbye") == Goodbye
    ensures Utf8("h") == [104] && Utf8("g") == [103]
  {
    Utf8OfAsciiIs("hello", Hello);
    Utf8OfAsciiIs("goodbye", Goodbye);
    Utf8OfAsciiIs("h", [104]);
    Utf8OfAsciiIs("g", [103]);
  }

  /** The program's two calls: "hello" gives "h" and "goodbye" gives "g",
      and "initializing!" is printed once. */
  lemma SampleRun()
    ensures var (g, outs) := ParseAll(Start, [Utf8("hello"), Utf8("goodbye")]);
      && outs == [Utf8("h"), Utf8("g")]
      && g.inits == 1
  {
    LiteralBytes();
    assert [Utf8("hello"), Utf8("goodbye")] == [Hello, Goodbye];
    ParseAllInitialisesOnce(Start, [Hello, Goodbye]);
    var outs := ParseAll(Start, [Hello, Goodbye]).1;
    assert outs[0] == Hello[0..1] == [104];
    assert outs[1] == Goodbye[0..1] == [103];
  }
}
