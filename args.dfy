/**
 * The command-line loop of SMPPSender.main: options start with `-`, their names
 * match case-insensitively, `dest` and `destination` are aliases, and a recognised
 * option takes the next argument as its value whatever that argument looks like.
 * `Byte.parseByte` belongs to java.lang and is a parameter here; a malformed
 * number and a recognised option in last position end the loop with an exception.
 */
module Args {
  import opened Wrappers
  import opened JavaLang

  /** The library's decimal parser for `-senderTon`/`-senderNpi`: None where it throws. */
  type ByteParser = string -> Option<Byte>

  /** The default value of the static field `propsFilePath`. */
  const DEFAULT_PROPS_FILE: string := "../etc/smppsender.cfg"

  /** The options the loop recognises; `dest` and `destination` name the same one. */
  datatype Key = Sender | SenderTon | SenderNpi | Dest | Message | File

  /** The locals (and the static `propsFilePath`) the loop assigns. */
  datatype Parsed = Parsed(
    sender: Option<string>,
    senderTon: Byte,
    senderNpi: Byte,
    dest: Option<string>,
    message: Option<string>,
    propsFile: string)

  /** How the loop ends abnormally. */
  datatype ParseError =
    | MissingValue(option: string)   // ArrayIndexOutOfBoundsException from args[++i]
    | BadNumber(text: string)        // NumberFormatException from Byte.parseByte

  const Initial: Parsed := Parsed(None, 0, 0, None, None, DEFAULT_PROPS_FILE)

  /** The option an option name (the argument without its leading `-`) stands for. */
  function KeyOf(name: string): (k: Option<Key>)
    ensures k == Some(Dest) <==> EqualsIgnoreCase(name, "dest") || EqualsIgnoreCase(name, "destination")
    ensures k == Some(Sender) <==> EqualsIgnoreCase(name, "sender")
    ensures k == Some(SenderTon) <==> EqualsIgnoreCase(name, "senderTon")
    ensures k == Some(SenderNpi) <==> EqualsIgnoreCase(name, "senderNpi")
    ensures k == Some(Message) <==> EqualsIgnoreCase(name, "message")
    ensures k == Some(File) <==> EqualsIgnoreCase(name, "file")
  {
    // the names that share a length differ in one character
    assert EqualsIgnoreCase(name, "senderTon") ==> LowerAscii(name[6]) == LowerAscii("senderTon"[6]) == 't';
    assert EqualsIgnoreCase(name, "senderNpi") ==> LowerAscii(name[6]) == LowerAscii("senderNpi"[6]) == 'n';
    assert EqualsIgnoreCase(name, "dest") ==> LowerAscii(name[0]) == LowerAscii("dest"[0]) == 'd';
    assert EqualsIgnoreCase(name, "file") ==> LowerAscii(name[0]) == LowerAscii("file"[0]) == 'f';
    if EqualsIgnoreCase(name, "sender") then Some(Sender)
    else if EqualsIgnoreCase(name, "senderTon") then Some(SenderTon)
    else if EqualsIgnoreCase(name, "senderNpi") then Some(SenderNpi)
    else if EqualsIgnoreCase(name, "dest") then Some(Dest)
    else if EqualsIgnoreCase(name, "destination") then Some(Dest)
    else if EqualsIgnoreCase(name, "message") then Some(Message)
    else if EqualsIgnoreCase(name, "file") then Some(File)
    else None
  }

  /** The option an argument names, if it is a recognised option at all. */
  function OptionOf(arg: string): (k: Option<Key>)
    ensures k.Some? ==> StartsWith(arg, "-") && k == KeyOf(arg[1..])
    ensures !StartsWith(arg, "-") ==> k.None?
  {
    if StartsWith(arg, "-") then KeyOf(arg[1..]) else None
  }

  /** The assignment the loop performs for option `k` with value `v`. */
  function Assign(p: Parsed, k: Key, v: string, parseByte: ByteParser): (r: Result<Parsed, ParseError>)
    ensures r.Failure? <==> (k == SenderTon || k == SenderNpi) && parseByte(v).None?
    ensures r.Failure? ==> r.error == BadNumber(v)
    ensures r.Success? ==> Holds(r.value, k, v, parseByte) && SameExcept(p, r.value, k)
  {
    match k
    case Sender => Success(p.(sender := Some(v)))
    case SenderTon =>
      (match parseByte(v)
       case None => Failure(BadNumber(v))
       case Some(b) => Success(p.(senderTon := b)))
    case SenderNpi =>
      (match parseByte(v)
       case None => Failure(BadNumber(v))
       case Some(b) => Success(p.(senderNpi := b)))
    case Dest => Success(p.(dest := Some(v)))
    case Message => Success(p.(message := Some(v)))
    case File => Success(p.(propsFile := v))
  }

  /** The effect of scanning the arguments `args` starting from the state `p`. */
  function ParseFrom(args: seq<string>, p: Parsed, parseByte: ByteParser): (r: Result<Parsed, ParseError>)
    ensures r.Failure? && r.error.MissingValue? ==>
      args != [] && r.error.option == args[|args| - 1] && OptionOf(args[|args| - 1]).Some?
    ensures r.Failure? && r.error.BadNumber? ==> r.error.text in args
    decreases |args|
  {
    if args == [] then Success(p)
    else match OptionOf(args[0])
      case None => ParseFrom(args[1..], p, parseByte)
      case Some(k) =>
        if |args| == 1 then Failure(MissingValue(args[0]))
        else match Assign(p, k, args[1], parseByte)
          case Failure(e) => Failure(e)
          case Success(q) => ParseFrom(args[2..], q, parseByte)
  }

  /** The outcome of the whole argument loop of `main`. */
  function Parse(args: seq<string>, parseByte: ByteParser): Result<Parsed, ParseError> {
    ParseFrom(args, Initial, parseByte)
  }

  /** The argument loop, with its index `i` advanced twice for an option and its value. */
  method ParseArgs(args: seq<string>, parseByte: ByteParser) returns (r: Result<Parsed, ParseError>)
    ensures r == Parse(args, parseByte)
  {
    var p := Initial;
    var i := 0;
    while i < |args|
      invariant 0 <= i <= |args|
      invariant ParseFrom(args[i..], p, parseByte) == Parse(args, parseByte)
    {
      assert args[i..][0] == args[i];
      var opt := OptionOf(args[i]);
      if opt.Some? {
        if i + 1 == |args| {
          return Failure(MissingValue(args[i]));
        }
        assert args[i..][1] == args[i + 1] && args[i..][2..] == args[i + 2..];
        i := i + 1;
        var next := Assign(p, opt.value, args[i], parseByte);
        if next.Failure? {
          return Failure(next.error);
        }
        p := next.value;
      } else {
        assert args[i..][1..] == args[i + 1..];
      }
      i := i + 1;
    }
    return Success(p);
  }

  /** `main` prints its usage line and exits with status 0 exactly when these are missing. */
  predicate NeedsUsage(p: Parsed) {
    p.dest.None? || p.message.None?
  }

  /** `p` and `q` agree on every option other than `k`. */
  predicate SameExcept(p: Parsed, q: Parsed, k: Key) {
    && (k != Sender ==> q.sender == p.sender)
    && (k != SenderTon ==> q.senderTon == p.senderTon)
    && (k != SenderNpi ==> q.senderNpi == p.senderNpi)
    && (k != Dest ==> q.dest == p.dest)
    && (k != Message ==> q.message == p.message)
    && (k != File ==> q.propsFile == p.propsFile)
  }

  /** Whether the value of option `k` in `p` is the one that `v` gives it. */
  predicate Holds(p: Parsed, k: Key, v: string, parseByte: ByteParser) {
    match k
    case Sender => p.sender == Some(v)
    case SenderTon => parseByte(v).Some? && p.senderTon == parseByte(v).value
    case SenderNpi => parseByte(v).Some? && p.senderNpi == parseByte(v).value
    case Dest => p.dest == Some(v)
    case Message => p.message == Some(v)
    case File => p.propsFile == v
  }

  /** No argument of `args` names option `k`, in whatever case and alias. */
  predicate Unnamed(args: seq<string>, k: Key) {
    forall j :: 0 <= j < |args| ==> OptionOf(args[j]) != Some(k)
  }

  /** Scanning a prefix that ends cleanly and then the rest is scanning the rest from where the prefix left off. */
  lemma {:induction false} ParseAppend(a: seq<string>, b: seq<string>, p: Parsed, q: Parsed, parseByte: ByteParser)
    requires ParseFrom(a, p, parseByte) == Success(q)
    ensures ParseFrom(a + b, p, parseByte) == ParseFrom(b, q, parseByte)
    decreases |a|
  {
    if a == [] {
      assert a + b == b;
    } else {
      assert (a + b)[0] == a[0];
      match OptionOf(a[0])
      case None =>
        assert (a + b)[1..] == a[1..] + b;
        ParseAppend(a[1..], b, p, q, parseByte);
      case Some(k) =>
        assert |a| >= 2;
        assert (a + b)[1] == a[1] && (a + b)[2..] == a[2..] + b;
        var p' := Assign(p, k, a[1], parseByte).value;
        ParseAppend(a[2..], b, p', q, parseByte);
    }
  }

  /**
   * After a cleanly scanned prefix, a recognised option takes the argument after it as
   * its value, even one that starts with `-` or names an option itself.
   */
  lemma OptionTakesNextArgument(a: seq<string>, opt: string, v: string, b: seq<string>,
                                p: Parsed, q: Parsed, parseByte: ByteParser)
    requires ParseFrom(a, p, parseByte) == Success(q)
    requires OptionOf(opt).Some?
    ensures ParseFrom(a + [opt, v] + b, p, parseByte) ==
      match Assign(q, OptionOf(opt).value, v, parseByte)
      case Failure(e) => Failure(e)
      case Success(q') => ParseFrom(b, q', parseByte)
  {
    assert a + [opt, v] + b == a + ([opt, v] + b);
    ParseAppend(a, [opt, v] + b, p, q, parseByte);
    assert ([opt, v] + b)[0] == opt && ([opt, v] + b)[1] == v && ([opt, v] + b)[2..] == b;
  }

  /** An argument that is not a recognised option, where the scan reaches it, is skipped: removing it changes nothing. */
  lemma SkipsUnrecognised(a: seq<string>, x: string, b: seq<string>, p: Parsed, q: Parsed, parseByte: ByteParser)
    requires ParseFrom(a, p, parseByte) == Success(q)
    requires OptionOf(x).None?
    ensures ParseFrom(a + [x] + b, p, parseByte) == ParseFrom(a + b, p, parseByte)
  {
    assert a + [x] + b == a + ([x] + b);
    ParseAppend(a, [x] + b, p, q, parseByte);
    ParseAppend(a, b, p, q, parseByte);
    assert ([x] + b)[0] == x && ([x] + b)[1..] == b;
  }

  /** A recognised option as the last argument, where the scan reaches it, ends the loop with an index error. */
  lemma TrailingOptionFails(a: seq<string>, opt: string, p: Parsed, q: Parsed, parseByte: ByteParser)
    requires ParseFrom(a, p, parseByte) == Success(q)
    requires OptionOf(opt).Some?
    ensures ParseFrom(a + [opt], p, parseByte) == Failure(MissingValue(opt))
  {
    ParseAppend(a, [opt], p, q, parseByte);
  }

  /** Arguments that never name option `k` leave its value as it was. */
  lemma {:induction false} UnnamedKeepsValue(b: seq<string>, k: Key, v: string, q: Parsed, s: Parsed, parseByte: ByteParser)
    requires Unnamed(b, k)
    requires Holds(q, k, v, parseByte)
    requires ParseFrom(b, q, parseByte) == Success(s)
    ensures Holds(s, k, v, parseByte)
    decreases |b|
  {
    if b != [] {
      assert OptionOf(b[0]) != Some(k);
      assert Unnamed(b[1..], k) by {
        forall j | 0 <= j < |b[1..]| ensures OptionOf(b[1..][j]) != Some(k) {
          assert b[1..][j] == b[j + 1];
        }
      }
      match OptionOf(b[0])
      case None =>
        UnnamedKeepsValue(b[1..], k, v, q, s, parseByte);
      case Some(k') =>
        assert Unnamed(b[2..], k) by {
          forall j | 0 <= j < |b[2..]| ensures OptionOf(b[2..][j]) != Some(k) {
            assert b[2..][j] == b[j + 2];
          }
        }
        var q' := Assign(q, k', b[1], parseByte).value;
        UnnamedKeepsValue(b[2..], k, v, q', s, parseByte);
    }
  }

  /**
   * The last occurrence of an option wins: once option `k` is given value `v`, an
   * earlier occurrence no longer matters and the value survives to the end unless
   * a later argument names `k` again.
   */
  lemma LastOccurrenceWins(a: seq<string>, opt: string, v: string, b: seq<string>,
                           p: Parsed, q: Parsed, s: Parsed, parseByte: ByteParser)
    requires ParseFrom(a, p, parseByte) == Success(q)
    requires OptionOf(opt).Some?
    requires Unnamed(b, OptionOf(opt).value)
    requires ParseFrom(a + [opt, v] + b, p, parseByte) == Success(s)
    ensures Holds(s, OptionOf(opt).value, v, parseByte)
  {
    var k := OptionOf(opt).value;
    OptionTakesNextArgument(a, opt, v, b, p, q, parseByte);
    var q' := Assign(q, k, v, parseByte).value;
    UnnamedKeepsValue(b, k, v, q', s, parseByte);
  }
}
