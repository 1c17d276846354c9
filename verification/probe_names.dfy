/** How a function of an ELF file gets from its symbol to an attached program: the explorer writes
    `name:offset` (src/datacrumbs/explorer/mechanism/elf_capture.cpp), the generator gives it an event
    id and names its program (src/datacrumbs/generator/generator.cpp, mechanisms/uprobe_generator.h),
    and the server finds name and offset again from the id (src/datacrumbs/server/process/server.impl.cpp). */
module ProbeNames {
  import opened Common
  import opened NumberText

  // ---------- Names ----------

  /** The position of the first colon, or the length. */
  function Colon(s: string): (n: nat)
    ensures n <= |s|
  {
    if |s| == 0 || s[0] == ':' then 0 else 1 + Colon(s[1..])
  }

  predicate IsManual(func: string) { Colon(func) < |func| }

  function NameOf(func: string): string { func[..Colon(func)] }

  function OffsetOf(func: string): string {
    if IsManual(func) then func[Colon(func) + 1..] else ""
  }

  predicate HasColon(s: string) { exists k :: 0 <= k < |s| && s[k] == ':' }

  lemma {:induction false} ColonAt(s: string)
    requires IsManual(s)
    ensures s[Colon(s)] == ':'
  {
    if s[0] != ':' {
      ColonAt(s[1..]);
    }
  }

  lemma {:induction false} ColonExact(s: string)
    ensures IsManual(s) <==> HasColon(s)
    ensures !HasColon(NameOf(s))
    ensures IsManual(s) ==> s == NameOf(s) + ":" + OffsetOf(s)
  {
    if |s| > 0 && s[0] != ':' {
      ColonExact(s[1..]);
      assert NameOf(s) == [s[0]] + NameOf(s[1..]);
      if HasColon(s) {
        var k :| 0 <= k < |s| && s[k] == ':';
        assert s[1..][k - 1] == ':';
      }
    }
    if IsManual(s) {
      ColonAt(s);
      assert s == s[..Colon(s)] + [s[Colon(s)]] + s[Colon(s) + 1..];
    }
  }

  /** Splitting at the first colon recovers both parts of a name without one. */
  lemma {:induction false} SplitJoined(name: string, offset: string)
    requires !HasColon(name)
    ensures var s := name + ":" + offset; IsManual(s) && NameOf(s) == name && OffsetOf(s) == offset
  {
    var s := name + ":" + offset;
    if |name| > 0 {
      assert !HasColon(name[1..]) by {
        assert forall k | 0 <= k < |name[1..]| :: name[1..][k] == name[k + 1];
      }
      SplitJoined(name[1..], offset);
      assert s[1..] == name[1..] + ":" + offset && s[0] == name[0];
      assert NameOf(s) == [name[0]] + NameOf(s[1..]);
    } else {
      assert s == ":" + offset;
    }
  }

  function Replaced(s: string): string {
    seq(|s|, k requires 0 <= k < |s| => if s[k] == '.' || s[k] == '@' then '_' else s[k])
  }

  /** The name shortened to ten characters, with dots and at signs replaced. */
  function Sanitized(name: string): string {
    Replaced(if |name| > 10 then name[..10] else name)
  }

  /** The first ten characters, dots and at signs made underscores and everything else left alone. */
  lemma {:induction false} SanitizedExact(name: string, k: nat)
    ensures |Sanitized(name)| == if |name| < 10 then |name| else 10
    ensures k < |Sanitized(name)| ==>
              && Sanitized(name)[k] !in ".@"
              && (name[k] in ".@" ==> Sanitized(name)[k] == '_')
              && (name[k] !in ".@" ==> Sanitized(name)[k] == name[k])
  {
  }

  /** No program for entries has the name of one for exits. */
  lemma {:induction false} EntryIsNoExit(name: string, id: string, other: string, otherId: string)
    ensures EntryName(name, id) != ExitName(other, otherId)
  {
    var x, y := EntryName(name, id), ExitName(other, otherId);
    assert x[|x| - 1] == 'y' && y[|y| - 1] == 't';
  }

  method Sanitize(name: string) returns (s: string)
    ensures s == Sanitized(name)
  {
    s := if |name| > 10 then name[..10] else name;
    ghost var short := s;
    s := Replace(s, '.');
    s := Replace(s, '@');
    assert s == Replaced(short);
  }

  method Replace(s: string, c: char) returns (r: string)
    ensures |r| == |s| && forall k | 0 <= k < |s| :: r[k] == if s[k] == c then '_' else s[k]
  {
    r := s;
    var i := 0;
    while i < |s|
      invariant 0 <= i <= |s| == |r| && r[i..] == s[i..]
      invariant forall k | 0 <= k < i :: r[k] == if s[k] == c then '_' else s[k]
    {
      if r[i] == c {
        r := r[i := '_'];
      }
      i := i + 1;
    }
  }

  function EntryName(name: string, id: string): string { Sanitized(name) + id + "_entry" }

  function ExitName(name: string, id: string): string { Sanitized(name) + id + "_exit" }

  // ---------- The explorer ----------

  datatype Symbol = Symbol(defined: bool, isFunction: bool, name: string, value: U64)

  predicate Listed(s: Symbol) { s.defined && s.isFunction }

  const EXCLUDED := {"_init", "_fini", "_start"}

  function OffsetText(v: U64): string { "0x" + Print(v, 16) }

  predicate Splittable(name: string) { name != "" && !IsManual(name) }

  lemma {:induction false} SplittableExact()
    ensures forall n :: Splittable(n) <==> n != "" && !HasColon(n)
  {
    forall n ensures Splittable(n) <==> n != "" && !HasColon(n) {
      ColonExact(n);
    }
  }

  /** The offsets collected for a name: none for a name that could not be split again. */
  function Offsets(syms: seq<Symbol>, name: string): set<string> {
    if !Splittable(name) then {} else set s | s in syms && Listed(s) && s.name == name :: OffsetText(s.value)
  }

  function Names(syms: seq<Symbol>): set<string> {
    set s | s in syms && Listed(s) && s.name !in EXCLUDED :: s.name
  }

  /** What is listed for a name; nothing is defined for one without offsets that has to show one. */
  function ListedAs(offsets: set<string>, name: string, includeOffsets: bool): set<string> {
    if |offsets| > 1 || includeOffsets then set o | o in offsets :: name + ":" + o else {name}
  }

  /** The names among the given ones for which `x` is listed. */
  ghost function ShownFor(syms: seq<Symbol>, names: set<string>, includeOffsets: bool, x: string): set<string> {
    set n | n in names && x in ListedAs(Offsets(syms, n), n, includeOffsets)
  }

  lemma {:induction false} OneMoreName(syms: seq<Symbol>, names: set<string>, name: string, includeOffsets: bool, x: string)
    requires name !in names
    ensures |ShownFor(syms, names + {name}, includeOffsets, x)|
         == if x in ListedAs(Offsets(syms, name), name, includeOffsets) then |ShownFor(syms, names, includeOffsets, x)| + 1
            else |ShownFor(syms, names, includeOffsets, x)|
  {
    var before, after := ShownFor(syms, names, includeOffsets, x), ShownFor(syms, names + {name}, includeOffsets, x);
    if x in ListedAs(Offsets(syms, name), name, includeOffsets) {
      assert after == before + {name} && name !in before;
    } else {
      assert after == before;
    }
  }

  /** Every line occurs once for every name it is listed for. */
  ghost predicate ListsAll(syms: seq<Symbol>, names: set<string>, includeOffsets: bool, symbols: seq<string>) {
    forall x: string :: ListsExactly(syms, names, includeOffsets, symbols, x)
  }

  ghost predicate ListsExactly(syms: seq<Symbol>, names: set<string>, includeOffsets: bool, symbols: seq<string>, x: string) {
    multiset(symbols)[x] == |ShownFor(syms, names, includeOffsets, x)|
  }

  /** The symbol table's functions, as `name` or `name:offset`.  When offsets are asked for and a
      function's name is empty or holds a colon, the code takes the first element of an empty set. */
  method ExtractSymbols(syms: seq<Symbol>, includeOffsets: bool) returns (symbols: seq<string>, ok: bool)
    ensures ok <==> !(includeOffsets && exists n :: n in Names(syms) && (n == "" || HasColon(n)))
    ensures ok ==> ListsAll(syms, Names(syms), includeOffsets, symbols)
  {
    SplittableExact();
    var symbolsMap := Collect(syms);
    var names := set n | n in symbolsMap && n !in EXCLUDED;
    assert names == Names(syms);
    forall n | n in names ensures symbolsMap[n] == {} <==> !Splittable(n) {
      OffsetsEmpty(syms, n);
    }
    symbols, ok := ListNames(symbolsMap, names, includeOffsets, syms);
  }

  /** The second pass: the lines for all names, in any order. */
  method ListNames(symbolsMap: map<string, set<string>>, names: set<string>, includeOffsets: bool, ghost syms: seq<Symbol>)
      returns (symbols: seq<string>, ok: bool)
    requires forall n | n in names :: n in symbolsMap && symbolsMap[n] == Offsets(syms, n)
    requires forall n | n in names :: symbolsMap[n] == {} <==> !Splittable(n)
    ensures ok <==> !(includeOffsets && exists n :: n in names && !Splittable(n))
    ensures ok ==> ListsAll(syms, names, includeOffsets, symbols)
  {
    symbols, ok := [], true;
    ghost var done: set<string> := {};
    NothingListed(syms, includeOffsets);
    var todo := names;
    while todo != {}
      invariant todo <= names && done == names - todo && ok
      invariant includeOffsets ==> AllSplittable(done)
      invariant ListsAll(syms, done, includeOffsets, symbols)
      decreases |todo|
    {
      var name :| name in todo;
      symbols, ok := ListName(symbols, name, symbolsMap[name], includeOffsets, syms, done);
      if !ok {
        return;
      }
      todo, done := todo - {name}, done + {name};
    }
    assert done == names;
  }

  predicate AllSplittable(names: set<string>) {
    forall n | n in names :: Splittable(n)
  }

  lemma {:induction false} NothingListed(syms: seq<Symbol>, includeOffsets: bool)
    ensures ListsAll(syms, {}, includeOffsets, [])
  {
    forall x: string ensures ListsExactly(syms, {}, includeOffsets, [], x) {
      assert ShownFor(syms, {}, includeOffsets, x) == {};
    }
  }

  method ListName(symbols: seq<string>, name: string, offsets: set<string>, includeOffsets: bool,
                  ghost syms: seq<Symbol>, ghost done: set<string>)
      returns (more: seq<string>, ok: bool)
    requires name !in done && ListsAll(syms, done, includeOffsets, symbols) && offsets == Offsets(syms, name)
    ensures ok <==> !(includeOffsets && offsets == {})
    ensures ok ==> ListsAll(syms, done + {name}, includeOffsets, more)
  {
    if |offsets| <= 1 && includeOffsets && offsets == {} {
      return symbols, false;
    }
    var listed := List(name, offsets, includeOffsets);
    ListsMore(syms, done, name, includeOffsets, symbols, listed);
    return symbols + listed, true;
  }

  lemma {:induction false} ListsMore(syms: seq<Symbol>, names: set<string>, name: string, includeOffsets: bool,
                                     symbols: seq<string>, listed: seq<string>)
    requires name !in names && ListsAll(syms, names, includeOffsets, symbols)
    requires EachOnce(listed, ListedAs(Offsets(syms, name), name, includeOffsets))
    ensures ListsAll(syms, names + {name}, includeOffsets, symbols + listed)
  {
    var after, more := names + {name}, symbols + listed;
    forall x: string ensures ListsExactly(syms, after, includeOffsets, more, x) {
      OneMoreName(syms, names, name, includeOffsets, x);
      assert ListsExactly(syms, names, includeOffsets, symbols, x);
      assert multiset(symbols + listed) == multiset(symbols) + multiset(listed);
    }
  }

  /** The sequence holds the elements of the set, each once. */
  ghost predicate EachOnce(s: seq<string>, elements: set<string>) {
    forall x: string :: multiset(s)[x] == if x in elements then 1 else 0
  }

  /** The lines for one name. */
  method List(name: string, offsets: set<string>, includeOffsets: bool) returns (listed: seq<string>)
    requires includeOffsets ==> offsets != {}
    ensures EachOnce(listed, ListedAs(offsets, name, includeOffsets))
  {
    if |offsets| <= 1 && !includeOffsets {
      return [name];
    }
    listed := [];
    var rest := offsets;
    while rest != {}
      invariant rest <= offsets && EachOnce(listed, set o | o in offsets - rest :: name + ":" + o)
      decreases |rest|
    {
      var o :| o in rest;
      ListOneMore(name, offsets - rest, o, listed);
      listed := listed + [name + ":" + o];
      rest := rest - {o};
      assert offsets - rest == (offsets - (rest + {o})) + {o};
    }
    assert offsets - rest == offsets;
  }

  lemma {:induction false} ListOneMore(name: string, done: set<string>, o: string, listed: seq<string>)
    requires o !in done && EachOnce(listed, set p | p in done :: name + ":" + p)
    ensures EachOnce(listed + [name + ":" + o], set p | p in done + {o} :: name + ":" + p)
  {
    var line := name + ":" + o;
    forall p | p in done ensures name + ":" + p != line {
      assert (name + ":" + p)[|name| + 1..] == p && line[|name| + 1..] == o;
    }
    assert (set p | p in done + {o} :: name + ":" + p) == (set p | p in done :: name + ":" + p) + {line};
    assert multiset(listed + [line]) == multiset(listed) + multiset{line};
  }

  /** The first pass: the offsets of every function's name. */
  method Collect(syms: seq<Symbol>) returns (symbolsMap: map<string, set<string>>)
    ensures forall n :: n in symbolsMap <==> exists s :: s in syms && Listed(s) && s.name == n
    ensures forall n :: n in symbolsMap ==> symbolsMap[n] == Offsets(syms, n)
  {
    symbolsMap := map[];
    var j := 0;
    while j < |syms|
      invariant 0 <= j <= |syms|
      invariant forall n :: n in symbolsMap <==> exists s :: s in syms[..j] && Listed(s) && s.name == n
      invariant forall n :: n in symbolsMap ==> symbolsMap[n] == Offsets(syms[..j], n)
    {
      var s := syms[j];
      OneMoreSymbol(syms[..j], s);
      assert syms[..j + 1] == syms[..j] + [s];
      if Listed(s) {
        if s.name !in symbolsMap {
          symbolsMap := symbolsMap[s.name := {}];
        }
        if Splittable(s.name) {
          symbolsMap := symbolsMap[s.name := symbolsMap[s.name] + {OffsetText(s.value)}];
        }
      }
      j := j + 1;
    }
    assert syms[..j] == syms;
  }

  lemma {:induction false} OneMoreSymbol(syms: seq<Symbol>, s: Symbol)
    ensures forall n :: Offsets(syms + [s], n)
                     == Offsets(syms, n) + if Listed(s) && s.name == n && Splittable(n) then {OffsetText(s.value)} else {}
    ensures (forall t :: t in syms ==> !Listed(t) || t.name != s.name) ==> Offsets(syms, s.name) == {}
  {
  }

  lemma {:induction false} OffsetsEmpty(syms: seq<Symbol>, name: string)
    requires name in Names(syms)
    ensures Offsets(syms, name) == {} <==> !Splittable(name)
  {
    if Splittable(name) {
      var s :| s in syms && Listed(s) && s.name == name;
      assert OffsetText(s.value) in Offsets(syms, name);
    }
  }

  /** Every function symbol whose name can be split again, and that has to show its address, is listed as
      name and address. */
  lemma {:induction false} SymbolShown(syms: seq<Symbol>, includeOffsets: bool, s: Symbol)
    requires s in syms && s.defined && s.isFunction && s.name !in {"_init", "_fini", "_start"}
    requires s.name != "" && !HasColon(s.name)
    requires includeOffsets || |Offsets(syms, s.name)| > 1
    ensures s.name in ShownFor(syms, Names(syms), includeOffsets, s.name + ":0x" + Print(s.value, 16))
  {
    ColonExact(s.name);
    assert s.name + ":" + OffsetText(s.value) == s.name + ":0x" + Print(s.value, 16);
    assert OffsetText(s.value) in Offsets(syms, s.name);
    assert s.name + ":" + OffsetText(s.value) in ListedAs(Offsets(syms, s.name), s.name, includeOffsets);
  }

  /** And what is listed with an address is the name and the address of a function symbol. */
  lemma {:induction false} ShownIsSymbol(syms: seq<Symbol>, includeOffsets: bool, n: string, x: string) returns (s: Symbol)
    requires n in Names(syms) && x in ListedAs(Offsets(syms, n), n, includeOffsets)
    requires includeOffsets || |Offsets(syms, n)| > 1
    ensures s in syms && s.defined && s.isFunction && s.name == n && n !in {"_init", "_fini", "_start"}
    ensures n != "" && !HasColon(n) && x == n + ":0x" + Print(s.value, 16)
  {
    ColonExact(n);
    var o :| o in Offsets(syms, n) && x == n + ":" + o;
    s :| s in syms && Listed(s) && s.name == n && OffsetText(s.value) == o;
    assert n + ":" + o == n + ":0x" + Print(s.value, 16);
  }

  /** A name that does not have to show an address is listed bare, and only so, if and only if it is that
      of a function symbol. */
  lemma {:induction false} NameShownBare(syms: seq<Symbol>, n: string)
    requires n !in {"_init", "_fini", "_start"}
    ensures n in Names(syms) <==> exists s :: s in syms && s.defined && s.isFunction && s.name == n
    ensures |Offsets(syms, n)| <= 1 ==> ListedAs(Offsets(syms, n), n, false) == {n}
  {
    if n in Names(syms) {
      var s :| s in syms && Listed(s) && s.name == n;
    }
    if s :| s in syms && s.defined && s.isFunction && s.name == n {
      assert Listed(s);
    }
  }

  /** The addresses collected for a name are those of its function symbols, as they are printed. */
  lemma {:induction false} OffsetsExact(syms: seq<Symbol>, n: string, v: U64)
    requires n != "" && !HasColon(n)
    ensures "0x" + Print(v, 16) in Offsets(syms, n)
       <==> exists s :: s in syms && s.defined && s.isFunction && s.name == n && s.value == v
  {
    ColonExact(n);
    if "0x" + Print(v, 16) in Offsets(syms, n) {
      var s :| s in syms && Listed(s) && s.name == n && OffsetText(s.value) == "0x" + Print(v, 16);
      assert OffsetText(s.value)[2..] == Print(s.value, 16) && OffsetText(v)[2..] == Print(v, 16);
      PrintInjective(s.value, v, 16);
    }
    if s :| s in syms && s.defined && s.isFunction && s.name == n && s.value == v {
      assert Listed(s) && OffsetText(s.value) in Offsets(syms, n);
    }
  }
}
