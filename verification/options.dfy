/**
 The option parser of include/sopt.h: clusters of short options, long options, and the
 end of options. Conversions of arguments are given as a test per option.
 */
module Options {
  import opened Basics

  /** SOPT_INVAL, the value of the entry that ends an option table. */
  const INVALID: int := '?' as int

  datatype Opt = Opt(val: int, name: Option<string>, takesArg: bool, accepts: string -> bool)

  const END_OF_TABLE := Opt(INVALID, None, false, _ => true)

  /** A parsed option with its argument; INVALID stands for a complaint. */
  datatype Parsed = Parsed(val: int, arg: Option<string>)

  function FindShort(opts: seq<Opt>, c: char): Opt {
    if opts == [] then END_OF_TABLE
    else if opts[0].val == c as int then opts[0]
    else FindShort(opts[1..], c)
  }

  function FindLong(opts: seq<Opt>, name: string): Opt {
    if opts == [] then END_OF_TABLE
    else if opts[0].name == Some(name) then opts[0]
    else FindLong(opts[1..], name)
  }

  /** What one call finds: the end, with the operands left, or an option, with the words
      left and what is left of the current cluster. On a word that is a dash alone the
      program reads past its end. */
  datatype Step =
    | Done(operands: seq<string>)
    | Stray
    | Found(option: Parsed, words: seq<string>, cluster: string)

  /** The argument of an option, if it takes one, is the next word. */
  function WithArg(o: Opt, words: seq<string>): Step {
    if !o.takesArg then Found(Parsed(o.val, None), words, "")
    else if words == [] then Found(Parsed(INVALID, None), [], "")
    else if o.accepts(words[0]) then Found(Parsed(o.val, Some(words[0])), words[1..], "")
    else Found(Parsed(INVALID, None), words[1..], "")
  }

  /** The first option of a cluster; only the last one may take an argument. */
  function Short(opts: seq<Opt>, cluster: string, words: seq<string>): Step
    requires cluster != ""
  {
    var o := FindShort(opts, cluster[0]);
    if |cluster| == 1 then WithArg(o, words)
    else Found(Parsed(if o.takesArg then INVALID else o.val, None), words, cluster[1..])
  }

  /** sopt_getopt on the words not yet looked at. */
  function Next(opts: seq<Opt>, words: seq<string>, cluster: string): Step {
    if cluster != "" then Short(opts, cluster, words)
    else if words == [] then Done([])
    else
      var w := words[0];
      if w == "" || w[0] != '-' then Done(words)
      else if |w| == 1 then Stray
      else if w[1] == '-' then
        if |w| == 2 then Done(words[1..]) else WithArg(FindLong(opts, w[2..]), words[1..])
      else Short(opts, w[1..], words[1..])
  }

  function Letters(words: seq<string>): nat {
    if words == [] then 0 else 1 + |words[0]| + Letters(words[1..])
  }

  /** Every call that finds an option uses something up. */
  lemma NextAdvances(opts: seq<Opt>, words: seq<string>, cluster: string)
    requires Next(opts, words, cluster).Found?
    ensures var n := Next(opts, words, cluster);
      Letters(n.words) + |n.cluster| < Letters(words) + |cluster|
  {
  }

  /** The options found, and the operands after them, if a dash alone has not come first. */
  datatype All = All(options: seq<Parsed>, operands: Option<seq<string>>)

  /** The loop of a caller: options until the end. */
  function ParseAll(opts: seq<Opt>, words: seq<string>, cluster: string): All
    decreases Letters(words) + |cluster|
  {
    match Next(opts, words, cluster)
    case Done(operands) => All([], Some(operands))
    case Stray => All([], None)
    case Found(option, words', cluster') =>
      NextAdvances(opts, words, cluster);
      var rest := ParseAll(opts, words', cluster');
      All([option] + rest.options, rest.operands)
  }

  /** Each option of a cluster as a word of its own. */
  function Separate(cluster: string): seq<string> {
    if cluster == "" then [] else ["-" + [cluster[0]]] + Separate(cluster[1..])
  }

  /** Options before the last take no argument, and there is no dash among them. */
  predicate Proper(opts: seq<Opt>, cluster: string) {
    && '-' !in cluster
    && forall i :: 0 <= i < |cluster| - 1 ==> !FindShort(opts, cluster[i]).takesArg
  }

  lemma {:induction false} ClusterFromHere(opts: seq<Opt>, cluster: string, words: seq<string>)
    requires Proper(opts, cluster)
    ensures ParseAll(opts, words, cluster) == ParseAll(opts, Separate(cluster) + words, "")
  {
    if cluster == "" {
      assert Separate(cluster) + words == words;
    } else {
      var first, rest := "-" + [cluster[0]], Separate(cluster[1..]) + words;
      assert Separate(cluster) + words == [first] + rest;
      assert ([first] + rest)[1..] == rest && first[1..] == [cluster[0]];
      ClusterFromHere(opts, cluster[1..], words);
      if |cluster| == 1 {
        assert rest == words;
      }
    }
  }

  /** Guideline 5 of section 12.2 of POSIX.1-2017 (Base Definitions): a cluster means what
      its options mean one by one, the last one with the argument that follows. */
  lemma ClusterIsSeparate(opts: seq<Opt>, cluster: string, words: seq<string>)
    requires cluster != "" && Proper(opts, cluster)
    ensures ParseAll(opts, ["-" + cluster] + words, "") == ParseAll(opts, Separate(cluster) + words, "")
  {
    ClusterFromHere(opts, cluster, words);
    var all := ["-" + cluster] + words;
    assert all[1..] == words && ("-" + cluster)[1..] == cluster;
    assert Next(opts, all, "") == Next(opts, words, cluster);
  }

  lemma DashedWord(opts: seq<Opt>, word: string, words: seq<string>)
    requires |word| > 1 && word[0] == '-'
    ensures Next(opts, [word] + words, "") ==
      if word[1] != '-' then Short(opts, word[1..], words)
      else if |word| == 2 then Done(words)
      else WithArg(FindLong(opts, word[2..]), words)
  {
    assert ([word] + words)[1..] == words;
  }

  // ---------------------------------------------------------------- what a word means

  /** The k-th entry is the first for a letter, or for a name. */
  ghost predicate FirstShort(opts: seq<Opt>, c: char, k: nat) {
    && k < |opts| && opts[k].val == c as int
    && forall j :: 0 <= j < k ==> opts[j].val != c as int
  }

  ghost predicate FirstLong(opts: seq<Opt>, name: string, k: nat) {
    && k < |opts| && opts[k].name == Some(name)
    && forall j :: 0 <= j < k ==> opts[j].name != Some(name)
  }

  ghost predicate NoShort(opts: seq<Opt>, c: char) {
    forall j :: 0 <= j < |opts| ==> opts[j].val != c as int
  }

  ghost predicate NoLong(opts: seq<Opt>, name: string) {
    forall j :: 0 <= j < |opts| ==> opts[j].name != Some(name)
  }

  lemma {:induction false} ShortIsFirst(opts: seq<Opt>, c: char, k: nat)
    ensures FirstShort(opts, c, k) ==> FindShort(opts, c) == opts[k]
    ensures NoShort(opts, c) ==> FindShort(opts, c).val == '?' as int && !FindShort(opts, c).takesArg
  {
    if opts != [] {
      assert forall j :: 0 <= j < |opts| - 1 ==> opts[1..][j] == opts[j + 1];
      if k > 0 {
        assert FirstShort(opts, c, k) ==> FirstShort(opts[1..], c, k - 1);
        ShortIsFirst(opts[1..], c, k - 1);
      } else {
        ShortIsFirst(opts[1..], c, 0);
      }
    }
  }

  lemma {:induction false} LongIsFirst(opts: seq<Opt>, name: string, k: nat)
    ensures FirstLong(opts, name, k) ==> FindLong(opts, name) == opts[k]
    ensures NoLong(opts, name) ==> FindLong(opts, name).val == '?' as int && !FindLong(opts, name).takesArg
  {
    if opts != [] {
      assert forall j :: 0 <= j < |opts| - 1 ==> opts[1..][j] == opts[j + 1];
      if k > 0 {
        assert FirstLong(opts, name, k) ==> FirstLong(opts[1..], name, k - 1);
        LongIsFirst(opts[1..], name, k - 1);
      } else {
        LongIsFirst(opts[1..], name, 0);
      }
    }
  }

  /** What a whole word stands for: an entry of the table, or a complaint with '?'. Without an
      argument it is found as it is; with one it takes the next word, whatever it looks like,
      if there is one and it converts, and that word is used up even if it does not. */
  ghost predicate Taken(o: Opt, rest: seq<string>, step: Step) {
    && (!o.takesArg ==> step == Found(Parsed(o.val, None), rest, ""))
    && (o.takesArg && rest == [] ==> step == Found(Parsed('?' as int, None), [], ""))
    && (o.takesArg && rest != [] && o.accepts(rest[0]) ==>
          step == Found(Parsed(o.val, Some(rest[0])), rest[1..], ""))
    && (o.takesArg && rest != [] && !o.accepts(rest[0]) ==>
          step == Found(Parsed('?' as int, None), rest[1..], ""))
  }

  /** A dash and a letter. */
  lemma ShortWord(opts: seq<Opt>, c: char, k: nat, rest: seq<string>)
    requires c != '-'
    ensures FirstShort(opts, c, k) ==> Taken(opts[k], rest, Next(opts, [['-', c]] + rest, ""))
    ensures NoShort(opts, c) ==> Next(opts, [['-', c]] + rest, "") == Found(Parsed('?' as int, None), rest, "")
  {
    DashedWord(opts, ['-', c], rest);
    ShortIsFirst(opts, c, k);
    assert ['-', c][1..] == [c];
  }

  /** Two dashes and a name. */
  lemma LongWord(opts: seq<Opt>, name: string, k: nat, rest: seq<string>)
    requires name != ""
    ensures FirstLong(opts, name, k) ==> Taken(opts[k], rest, Next(opts, ["--" + name] + rest, ""))
    ensures NoLong(opts, name) ==> Next(opts, ["--" + name] + rest, "") == Found(Parsed('?' as int, None), rest, "")
  {
    DashedWord(opts, "--" + name, rest);
    LongIsFirst(opts, name, k);
    assert ("--" + name)[2..] == name;
  }

  /** Two dashes alone end the options and are no operand; a word without a dash in front, an
      empty one included, ends them and is one. */
  lemma OptionsEnd(opts: seq<Opt>, word: string, rest: seq<string>)
    ensures Next(opts, ["--"] + rest, "") == Done(rest)
    ensures word == "" || word[0] != '-' ==> Next(opts, [word] + rest, "") == Done([word] + rest)
    ensures Next(opts, [], "") == Done([])
  {
    DashedWord(opts, "--", rest);
  }

  /** A letter with more letters behind it cannot have an argument: it is found alone, or
      complained about if it needs one, and the rest of the cluster comes next either way. */
  lemma LetterOfCluster(opts: seq<Opt>, c: char, k: nat, more: string, words: seq<string>)
    requires more != ""
    ensures FirstShort(opts, c, k) ==>
      Next(opts, words, [c] + more)
        == Found(Parsed(if opts[k].takesArg then '?' as int else opts[k].val, None), words, more)
    ensures NoShort(opts, c) ==> Next(opts, words, [c] + more) == Found(Parsed('?' as int, None), words, more)
  {
    ShortIsFirst(opts, c, k);
    assert ([c] + more)[1..] == more;
  }

  /** The last letter of a cluster is like a word of its own. */
  lemma LastOfCluster(opts: seq<Opt>, c: char, k: nat, rest: seq<string>)
    ensures FirstShort(opts, c, k) ==> Taken(opts[k], rest, Next(opts, rest, [c]))
    ensures NoShort(opts, c) ==> Next(opts, rest, [c]) == Found(Parsed('?' as int, None), rest, "")
  {
    ShortIsFirst(opts, c, k);
  }

  // ---------------------------------------------------------------- positions in place

  /** The table loop for a short option. */
  method LookShort(opts: seq<Opt>, c: char) returns (o: Opt)
    ensures o == FindShort(opts, c)
  {
    var i := 0;
    while i < |opts|
      invariant 0 <= i <= |opts| && FindShort(opts, c) == FindShort(opts[i..], c)
    {
      if opts[i].val == c as int {
        return opts[i];
      }
      i := i + 1;
    }
    return END_OF_TABLE;
  }

  /** The table loop for a long option. */
  method LookLong(opts: seq<Opt>, name: string) returns (o: Opt)
    ensures o == FindLong(opts, name)
  {
    var i := 0;
    while i < |opts|
      invariant 0 <= i <= |opts| && FindLong(opts, name) == FindLong(opts[i..], name)
    {
      if opts[i].name == Some(name) {
        return opts[i];
      }
      i := i + 1;
    }
    return END_OF_TABLE;
  }

  class Cursor {
    var cpos: nat
    var optind: nat

    constructor ()
      ensures cpos == 0 && optind == 0
    {
      cpos, optind := 0, 0;
    }

    /** The words after the current one. */
    function Words(argv: seq<string>): seq<string>
      reads this
    {
      if optind < |argv| then argv[optind + 1..] else []
    }

    function Cluster(argv: seq<string>): string
      reads this
      requires Valid(argv)
    {
      if cpos == 0 then "" else argv[optind][cpos..]
    }

    /** A cluster position lies inside the current word. */
    predicate Valid(argv: seq<string>)
      reads this
    {
      cpos != 0 ==> optind < |argv| && cpos < |argv[optind]|
    }

    /** The end of sopt_getopt: the option's argument. */
    method TakeArg(o: Opt, argv: seq<string>) returns (r: Parsed)
      requires cpos == 0 && optind < |argv|
      modifies this`optind
      ensures Found(r, Words(argv), "") == WithArg(o, old(Words(argv)))
    {
      if !o.takesArg {
        return Parsed(o.val, None);
      }
      optind := optind + 1;
      if optind >= |argv| {
        return Parsed(INVALID, None);
      }
      var arg := argv[optind];
      if !o.accepts(arg) {
        return Parsed(INVALID, None);
      }
      r := Parsed(o.val, Some(arg));
    }

    /** The short option at a position of the current word. */
    method TakeShort(opts: seq<Opt>, argv: seq<string>) returns (r: Parsed)
      requires optind < |argv| && 0 < cpos < |argv[optind]|
      modifies this
      ensures Valid(argv)
      ensures Found(r, Words(argv), Cluster(argv))
        == Short(opts, old(argv[optind][cpos..]), old(Words(argv)))
    {
      var o := LookShort(opts, argv[optind][cpos]);
      cpos := cpos + 1;
      if cpos < |argv[optind]| {
        if o.takesArg {
          return Parsed(INVALID, None);
        }
        return Parsed(o.val, None);
      }
      cpos := 0;
      r := TakeArg(o, argv);
    }

    /** What a call leaves behind, given what the remaining words come to. */
    ghost predicate After(argv: seq<string>, r: Option<Parsed>, step: Step)
      reads this
    {
      && Valid(argv)
      && match step
         case Done(operands) => r == None && operands == if optind < |argv| then argv[optind..] else []
         case Found(option, words, cluster) => r == Some(option) && Words(argv) == words && Cluster(argv) == cluster
         case Stray => false
    }

    /** The end of options, or a long one, at the current word. */
    method TakeLong(opts: seq<Opt>, argv: seq<string>) returns (r: Option<Parsed>)
      requires cpos == 0 && optind < |argv| && |argv[optind]| > 1
      modifies this
      ensures After(argv, r,
        if |argv[old(optind)]| == 2 then Done(old(Words(argv)))
        else WithArg(FindLong(opts, argv[old(optind)][2..]), old(Words(argv))))
    {
      if |argv[optind]| == 2 {
        optind := optind + 1;
        return None;
      }
      var o := LookLong(opts, argv[optind][2..]);
      var long := TakeArg(o, argv);
      r := Some(long);
    }

    /** The current word, which starts with a dash and is more than that. */
    method TakeWord(opts: seq<Opt>, argv: seq<string>) returns (r: Option<Parsed>)
      requires cpos == 0 && optind < |argv| && |argv[optind]| > 1 && argv[optind][0] == '-'
      modifies this
      ensures After(argv, r, Next(opts, [argv[old(optind)]] + old(Words(argv)), ""))
    {
      hide Next, Short, WithArg, FindLong;
      DashedWord(opts, argv[optind], Words(argv));
      if argv[optind][1] == '-' {
        r := TakeLong(opts, argv);
        return;
      }
      cpos := 1;
      var short := TakeShort(opts, argv);
      r := Some(short);
    }

    /** sopt_getopt; None stands for -1. */
    method Getopt(opts: seq<Opt>, argv: seq<string>) returns (r: Option<Parsed>)
      requires Valid(argv) && Next(opts, Words(argv), Cluster(argv)) != Stray
      modifies this
      ensures After(argv, r, Next(opts, old(Words(argv)), old(Cluster(argv))))
    {
      hide Short, WithArg, FindLong;
      if cpos != 0 {
        var short := TakeShort(opts, argv);
        return Some(short);
      }
      optind := optind + 1;
      if optind >= |argv| {
        return None;
      }
      var word := argv[optind];
      assert old(Words(argv)) == [word] + argv[optind + 1..];
      if word == "" || word[0] != '-' {
        return None;
      }
      r := TakeWord(opts, argv);
    }
  }
}
