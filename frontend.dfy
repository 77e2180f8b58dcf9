/** The command-line front end of Hasher_x01.cpp: the `upper`/`lower` case
    mappings, the choice of hasher by name, the positional arguments with
    their defaults, and `main` driving the engine. Only ASCII letters change
    case; number parsing (`boost::lexical_cast<size_t>`) is a parameter. */
module Frontend {
  import opened Common
  import opened Hashers
  import opened Packs
  import opened Schedule
  import opened Sink
  import opened Layout
  import Grouping
  import Engine

  // ---------------------------------------------------------------------------
  // upper / lower

  predicate IsLower(c: char) { 'a' <= c <= 'z' }
  predicate IsUpper(c: char) { 'A' <= c <= 'Z' }

  /** `std::toupper` on one character, in the ASCII range. */
  function UpperChar(c: char): char
  {
    if IsLower(c) then (c as int - 32) as char else c
  }

  /** `std::tolower` on one character, in the ASCII range. */
  function LowerChar(c: char): char
  {
    if IsUpper(c) then (c as int + 32) as char else c
  }

  /** The string of upper-cased characters. */
  function ToUpper(s: string): string
  {
    seq(|s|, i requires 0 <= i < |s| => UpperChar(s[i]))
  }

  /** The string of lower-cased characters. */
  function ToLower(s: string): string
  {
    seq(|s|, i requires 0 <= i < |s| => LowerChar(s[i]))
  }

  /** upper(str): a copy of `str`, each character of which is then
      upper-cased in place. The argument is a value, so it is unchanged. */
  method Upper(str: string) returns (upper: string)
    ensures |upper| == |str|
    ensures forall i :: 0 <= i < |str| ==> upper[i] == UpperChar(str[i])
    ensures upper == ToUpper(str)
  {
    upper := str;
    var i := 0;
    while i < |upper|
      invariant 0 <= i <= |upper| == |str|
      invariant forall k :: 0 <= k < i ==> upper[k] == UpperChar(str[k])
      invariant forall k :: i <= k < |upper| ==> upper[k] == str[k]
    {
      upper := upper[i := UpperChar(upper[i])];
      i := i + 1;
    }
  }

  /** lower(str): a copy of `str`, each character of which is then
      lower-cased in place. */
  method Lower(str: string) returns (lower: string)
    ensures |lower| == |str|
    ensures forall i :: 0 <= i < |str| ==> lower[i] == LowerChar(str[i])
    ensures lower == ToLower(str)
  {
    lower := str;
    var i := 0;
    while i < |lower|
      invariant 0 <= i <= |lower| == |str|
      invariant forall k :: 0 <= k < i ==> lower[k] == LowerChar(str[k])
      invariant forall k :: i <= k < |lower| ==> lower[k] == str[k]
    {
      lower := lower[i := LowerChar(lower[i])];
      i := i + 1;
    }
  }

  /** An upper-cased character is never a lower-case letter, a lower-cased
      one never an upper-case letter, and non-letters are kept. */
  lemma CaseMapping(c: char)
    ensures !IsLower(UpperChar(c)) && !IsUpper(LowerChar(c))
    ensures !IsLower(c) ==> UpperChar(c) == c
    ensures !IsUpper(c) ==> LowerChar(c) == c
    ensures IsLower(c) ==> IsUpper(UpperChar(c)) && LowerChar(UpperChar(c)) == c
    ensures IsUpper(c) ==> IsLower(LowerChar(c)) && UpperChar(LowerChar(c)) == c
  {
  }

  /** Upper-casing twice is upper-casing once; so is lower-casing. */
  lemma {:induction false} CaseIdempotent(s: string)
    ensures ToUpper(ToUpper(s)) == ToUpper(s)
    ensures ToLower(ToLower(s)) == ToLower(s)
  {
    forall i | 0 <= i < |s|
      ensures ToUpper(ToUpper(s))[i] == ToUpper(s)[i] && ToLower(ToLower(s))[i] == ToLower(s)[i]
    {
      CaseMapping(s[i]);
    }
  }

  /** Upper-casing forgets what lower-casing did, and the other way round:
      two strings that differ only in the case of their letters look alike
      once either mapping is applied. */
  lemma {:induction false} CaseForgets(s: string)
    ensures ToUpper(ToLower(s)) == ToUpper(s)
    ensures ToLower(ToUpper(s)) == ToLower(s)
  {
    forall i | 0 <= i < |s|
      ensures ToUpper(ToLower(s))[i] == ToUpper(s)[i] && ToLower(ToUpper(s))[i] == ToLower(s)[i]
    {
      CaseMapping(s[i]);
    }
  }

  // ---------------------------------------------------------------------------
  // The hasher by name

  /** The hasher `main` allocates for `name`: MD5, CRC32 or NONE in any
      case, each with the configured block size; any other name is
      "Unsupported hasher name". */
  function SelectHasher(name: string, blockSize: Size, md5: seq<byte> -> Md5Digest): (r: Option<Hasher>)
    ensures r.Some? ==> r.value.InputSize() == blockSize
  {
    var key := ToUpper(name);
    if key == "MD5" then Some(Md5Hasher(blockSize, md5))
    else if key == "CRC32" then Some(Crc32Hasher(blockSize))
    else if key == "NONE" then Some(NoneHasher(blockSize))
    else None
  }

  /** A name is accepted exactly when its upper-case form is one of the
      three known names, and then it picks the hasher of that name. */
  lemma SelectHasherNames(name: string, blockSize: Size, md5: seq<byte> -> Md5Digest)
    ensures SelectHasher(name, blockSize, md5).Some? <==> ToUpper(name) in ["MD5", "CRC32", "NONE"]
    ensures SelectHasher(name, blockSize, md5) == Some(Md5Hasher(blockSize, md5)) <==> ToUpper(name) == "MD5"
    ensures SelectHasher(name, blockSize, md5) == Some(Crc32Hasher(blockSize)) <==> ToUpper(name) == "CRC32"
    ensures SelectHasher(name, blockSize, md5) == Some(NoneHasher(blockSize)) <==> ToUpper(name) == "NONE"
  {
  }

  /** The choice ignores case: a name and its lower- or upper-cased form
      select the same hasher. */
  lemma SelectHasherIgnoresCase(name: string, blockSize: Size, md5: seq<byte> -> Md5Digest)
    ensures SelectHasher(ToLower(name), blockSize, md5) == SelectHasher(name, blockSize, md5)
    ensures SelectHasher(ToUpper(name), blockSize, md5) == SelectHasher(name, blockSize, md5)
  {
    CaseForgets(name);
    CaseIdempotent(name);
  }

  /** The default name "none" selects NoneHasher, and so do the lower-case
      spellings of the other two names their hashers. */
  lemma SelectHasherLowerCaseNames(blockSize: Size, md5: seq<byte> -> Md5Digest)
    ensures SelectHasher("none", blockSize, md5) == Some(NoneHasher(blockSize))
    ensures SelectHasher("md5", blockSize, md5) == Some(Md5Hasher(blockSize, md5))
    ensures SelectHasher("crc32", blockSize, md5) == Some(Crc32Hasher(blockSize))
  {
    assert ToUpper("none") == "NONE";
    assert ToUpper("md5") == "MD5";
    assert ToUpper("crc32") == "CRC32";
  }

  // ---------------------------------------------------------------------------
  // The command line

  /** 1 MiB, the default block size. */
  const DEFAULT_BLOCK_SIZE: Size := 1024 * 1024

  /** 200 MiB, the default memory limit. */
  const DEFAULT_MAX_MEMORY: Size := 1024 * 1024 * 200

  /** The default hasher name. */
  const DEFAULT_HASHER_NAME: string := "none"

  /** What `main` reads from `argv`: the two paths, the block size, the
      thread count as requested, the memory limit in bytes and the hasher. */
  datatype Config = Config(input: string, output: string, blockSize: Size, threadCount: Size,
                           maxMemory: Size, hasher: Hasher)

  /** Why `main` returns 1 before hashing: fewer than 3 arguments, a number
      `lexical_cast` rejects (the argument given), or an unknown hasher name. */
  datatype CommandLineError = TooFewArguments | BadLexicalCast(arg: string) | UnsupportedHasherName

  /** Argument `n` as a number, or `default` when there are not that many. */
  function Numeric(args: seq<string>, n: nat, parse: string -> Option<Size>, default: Size): Option<Size>
  {
    if |args| > n then parse(args[n]) else Some(default)
  }

  /** The hasher name: argument 4, or "none". */
  function HasherName(args: seq<string>): string
  {
    if |args| > 4 then args[4] else DEFAULT_HASHER_NAME
  }

  /** The memory limit: argument 6 times 1024, which wraps as `size_t`
      does, or 200 MiB. */
  function Memory(args: seq<string>, parse: string -> Option<Size>): Option<Size>
  {
    if |args| <= 6 then Some(DEFAULT_MAX_MEMORY)
    else if parse(args[6]).None? then None
    else Some(Wrap(parse(args[6]).value as int * 1024))
  }

  /** Lines 32-67 of main as a value: the configuration, or the first error
      in the order the code meets them (the count, then the block size, the
      thread count and the memory limit as they are parsed, then the name). */
  function CommandLine(args: seq<string>, parse: string -> Option<Size>, md5: seq<byte> -> Md5Digest)
    : Result<Config, CommandLineError>
  {
    if |args| < 3 then Failure(TooFewArguments)
    else if Numeric(args, 3, parse, DEFAULT_BLOCK_SIZE).None? then Failure(BadLexicalCast(args[3]))
    else if Numeric(args, 5, parse, 0).None? then Failure(BadLexicalCast(args[5]))
    else if Memory(args, parse).None? then Failure(BadLexicalCast(args[6]))
    else
      var blockSize := Numeric(args, 3, parse, DEFAULT_BLOCK_SIZE).value;
      var hasher := SelectHasher(HasherName(args), blockSize, md5);
      if hasher.None? then Failure(UnsupportedHasherName)
      else Success(Config(args[1], args[2], blockSize, Numeric(args, 5, parse, 0).value,
                          Memory(args, parse).value, hasher.value))
  }

  /** main's argument handling, local by local: the defaults, then
      `argv[3]`..`argv[6]` overriding the block size, the hasher name, the
      thread count and the memory limit, then the hasher chosen by name. */
  method ParseCommandLine(args: seq<string>, parse: string -> Option<Size>, md5: seq<byte> -> Md5Digest)
    returns (r: Result<Config, CommandLineError>)
    ensures r == CommandLine(args, parse, md5)
  {
    if |args| < 3 {
      return Failure(TooFewArguments);
    }
    var input, output := args[1], args[2];
    var hasherName := DEFAULT_HASHER_NAME;
    var threadCount: Size := 0;
    var blockSize := DEFAULT_BLOCK_SIZE;
    var maxMemory := DEFAULT_MAX_MEMORY;
    if |args| > 3 {
      var v := parse(args[3]);
      if v.None? {
        return Failure(BadLexicalCast(args[3]));
      }
      blockSize := v.value;
    }
    if |args| > 4 {
      hasherName := args[4];
    }
    if |args| > 5 {
      var v := parse(args[5]);
      if v.None? {
        return Failure(BadLexicalCast(args[5]));
      }
      threadCount := v.value;
    }
    if |args| > 6 {
      var v := parse(args[6]);
      if v.None? {
        return Failure(BadLexicalCast(args[6]));
      }
      maxMemory := Wrap(v.value as int * 1024);
    }
    var key := Upper(hasherName);
    var hasher: Hasher;
    if key == "MD5" {
      hasher := Md5Hasher(blockSize, md5);
    } else if key == "CRC32" {
      hasher := Crc32Hasher(blockSize);
    } else if key == "NONE" {
      hasher := NoneHasher(blockSize);
    } else {
      return Failure(UnsupportedHasherName);
    }
    r := Success(Config(input, output, blockSize, threadCount, maxMemory, hasher));
  }

  /** With fewer than 3 arguments nothing is parsed, and only then is the
      error TooFewArguments. */
  lemma CommandLineTooFew(args: seq<string>, parse: string -> Option<Size>, md5: seq<byte> -> Md5Digest)
    ensures |args| < 3 <==> CommandLine(args, parse, md5) == Failure(TooFewArguments)
  {
  }

  /** With just the two paths every default applies: a 1 MiB block, the
      NONE hasher, as many threads as the hardware offers (0) and 200 MiB. */
  lemma CommandLineDefaults(args: seq<string>, parse: string -> Option<Size>, md5: seq<byte> -> Md5Digest)
    requires |args| == 3
    ensures CommandLine(args, parse, md5)
      == Success(Config(args[1], args[2], 1048576, 0, 209715200, NoneHasher(1048576)))
  {
    SelectHasherLowerCaseNames(DEFAULT_BLOCK_SIZE, md5);
  }

  /** A configuration takes each field from its own argument when there is
      one: the block size from `argv[3]`, the name from `argv[4]`, the
      thread count from `argv[5]` and the memory from `argv[6]`, in KiB. */
  lemma CommandLineOverrides(args: seq<string>, parse: string -> Option<Size>, md5: seq<byte> -> Md5Digest)
    requires CommandLine(args, parse, md5).Success?
    ensures var c := CommandLine(args, parse, md5).value;
      && c.input == args[1] && c.output == args[2]
      && (|args| > 3 ==> Some(c.blockSize) == parse(args[3]))
      && (|args| <= 3 ==> c.blockSize == DEFAULT_BLOCK_SIZE)
      && Some(c.hasher) == SelectHasher(if |args| > 4 then args[4] else "none", c.blockSize, md5)
      && (|args| > 5 ==> Some(c.threadCount) == parse(args[5]))
      && (|args| <= 5 ==> c.threadCount == 0)
      && (|args| > 6 ==> c.maxMemory == (parse(args[6]).value * 1024) % SIZE_MODULUS)
      && (|args| <= 6 ==> c.maxMemory == DEFAULT_MAX_MEMORY)
  {
  }

  /** The command line is accepted exactly when there are at least 3
      arguments, every number present parses and the name is known. */
  lemma CommandLineAccepted(args: seq<string>, parse: string -> Option<Size>, md5: seq<byte> -> Md5Digest)
    ensures CommandLine(args, parse, md5).Success? <==>
      && |args| >= 3
      && (|args| > 3 ==> parse(args[3]).Some?)
      && (|args| > 5 ==> parse(args[5]).Some?)
      && (|args| > 6 ==> parse(args[6]).Some?)
      && ToUpper(HasherName(args)) in ["MD5", "CRC32", "NONE"]
  {
    if |args| >= 3 && Numeric(args, 3, parse, DEFAULT_BLOCK_SIZE).Some? {
      SelectHasherNames(HasherName(args), Numeric(args, 3, parse, DEFAULT_BLOCK_SIZE).value, md5);
    }
  }

  /** A rejected number is the first of `argv[3]`, `argv[5]`, `argv[6]` that
      does not parse, and the name is looked at only when all of them do. */
  lemma CommandLineFirstError(args: seq<string>, parse: string -> Option<Size>, md5: seq<byte> -> Md5Digest)
    ensures forall a :: CommandLine(args, parse, md5) == Failure(BadLexicalCast(a)) ==>
      (|args| > 3 && a == args[3] && parse(args[3]).None?)
      || (|args| > 5 && a == args[5] && parse(args[5]).None? && (|args| > 3 ==> parse(args[3]).Some?))
      || (|args| > 6 && a == args[6] && parse(args[6]).None? && parse(args[5]).Some? && parse(args[3]).Some?)
    ensures CommandLine(args, parse, md5) == Failure(UnsupportedHasherName) ==>
      |args| >= 3 && ToUpper(HasherName(args)) !in ["MD5", "CRC32", "NONE"]
  {
    if |args| >= 3 && Numeric(args, 3, parse, DEFAULT_BLOCK_SIZE).Some? {
      SelectHasherNames(HasherName(args), Numeric(args, 3, parse, DEFAULT_BLOCK_SIZE).value, md5);
    }
  }

  // ---------------------------------------------------------------------------
  // main

  /** How main ends: with a status (1 for a rejected command line, 0 after
      hashing), spinning forever on the memory wait, or dividing by a zero
      block size, which C++ leaves undefined. */
  datatype Outcome = Exited(status: int) | Stalled | DividesByZero

  /** The minimal pack count do_hash uses for `blockSize`. */
  function MinOptBlockCount(blockSize: Size): nat
    requires blockSize > 0
  {
    Max(Grouping.MinOptimalBlockCount(blockSize, Grouping.CACHE_LINE), 1)
  }

  /** The `try` block of main for an accepted command line: the engine is
      opened, given its limit, its hasher and its thread count, and run. A
      zero block size divides by zero, a counter over the limit stalls, and
      anything else ends with status 0 and the file one worker writes
      draining the producer's packs. */
  method RunHasher(c: Config, contents: seq<byte>, hardware: Grouping.Uint, fill: Fill, outFill: OutFill,
                   threadCount0: Size, memlimit0: Size, memsize0: Size)
    returns (o: Outcome, file: File)
    requires c.hasher.InputSize() == c.blockSize && |contents| + c.blockSize < SIZE_MODULUS
    ensures o == DividesByZero <==> c.blockSize == 0
    ensures c.blockSize > 0 ==> (o == Stalled <==> memsize0 > c.maxMemory)
    ensures c.blockSize > 0 && memsize0 <= c.maxMemory ==>
      o == Exited(0)
      && file == Drain(WorkState(map[], 0, []), PlannedPacks(c.hasher, contents, MinOptBlockCount(c.blockSize), fill), outFill).file
  {
    var fileHasher := new Engine.FileHasher(threadCount0, memlimit0, memsize0);
    fileHasher.Open(contents);
    fileHasher.SetMemlimit(c.maxMemory);
    var ok := fileHasher.SetHasher(Some(c.hasher));
    if c.blockSize == 0 {
      return DividesByZero, fileHasher.output;
    }
    var threads := fileHasher.SetThreadCount(c.threadCount, hardware);
    var stalled := fileHasher.DoHash(fill, outFill);
    o := if stalled then Stalled else Exited(0);
    file := fileHasher.output;
  }

  /** main, with the input file's contents, `hardware_concurrency()` and the
      values C++ leaves uninitialised (the engine's fields, the unread tail
      of a buffer, a worker's fresh output buffer) as parameters. A rejected
      command line ends with status 1 and no output; an accepted one runs
      the engine as RunHasher says. */
  method HasherMain(args: seq<string>, parse: string -> Option<Size>, md5: seq<byte> -> Md5Digest,
                    contents: seq<byte>, hardware: Grouping.Uint, fill: Fill, outFill: OutFill,
                    threadCount0: Size, memlimit0: Size, memsize0: Size)
    returns (o: Outcome, file: File)
    requires CommandLine(args, parse, md5).Success? ==>
      |contents| + CommandLine(args, parse, md5).value.blockSize < SIZE_MODULUS
    ensures CommandLine(args, parse, md5).Failure? ==> o == Exited(1) && file == map[]
    ensures CommandLine(args, parse, md5).Success? ==>
      var c := CommandLine(args, parse, md5).value;
      && (o == DividesByZero <==> c.blockSize == 0)
      && (c.blockSize > 0 ==> (o == Stalled <==> memsize0 > c.maxMemory))
      && (c.blockSize > 0 && memsize0 <= c.maxMemory ==>
            o == Exited(0)
            && file == Drain(WorkState(map[], 0, []), PlannedPacks(c.hasher, contents, MinOptBlockCount(c.blockSize), fill), outFill).file)
  {
    var cl := ParseCommandLine(args, parse, md5);
    if cl.Failure? {
      return Exited(1), map[];
    }
    o, file := RunHasher(cl.value, contents, hardware, fill, outFill, threadCount0, memlimit0, memsize0);
  }
}
