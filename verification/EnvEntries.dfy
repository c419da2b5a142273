/** The environment as a list of `name=value` strings, and its bytes: each string ended by a NUL,
    and one more NUL after the last. */
module EnvEntries {

  type Str = seq<bv8>

  const EQUALS: bv8 := 61
  const SPACE: bv8 := 32

  // ----- entries -----

  predicate NoNul(s: Str) {
    forall i :: 0 <= i < |s| ==> s[i] != 0
  }

  /** What comes before the first '=', or the whole string. */
  function Key(s: Str): (k: Str)
    ensures |k| <= |s| && k == s[..|k|] && EQUALS !in k
    ensures |k| < |s| ==> s[|k|] == EQUALS
  {
    if s == [] || s[0] == EQUALS then [] else [s[0]] + Key(s[1..])
  }

  /** What comes after the first '='. */
  function Value(s: Str): Str {
    if |Key(s)| < |s| then s[|Key(s)| + 1..] else []
  }

  predicate EntryOk(e: Str) {
    NoNul(e) && |Key(e)| < |e|
  }

  /** Entries without NULs, each with a name, and no name twice. */
  ghost predicate EntriesOk(es: seq<Str>) {
    && (forall j :: 0 <= j < |es| ==> EntryOk(es[j]))
    && (forall i, j :: 0 <= i < j < |es| ==> Key(es[i]) != Key(es[j]))
  }

  /** The first entry for a name, or the number of entries. */
  function IndexOf(es: seq<Str>, k: Str): (j: nat)
    ensures j <= |es|
    ensures j < |es| ==> Key(es[j]) == k
    ensures forall i :: 0 <= i < j ==> Key(es[i]) != k
  {
    if es == [] || Key(es[0]) == k then 0 else 1 + IndexOf(es[1..], k)
  }

  /** The entries without the one for a name. */
  function Without(es: seq<Str>, k: Str): seq<Str> {
    var j := IndexOf(es, k);
    if j < |es| then es[..j] + es[j + 1..] else es
  }

  // ----- the finite map -----

  function ToMap(es: seq<Str>): map<Str, Str> {
    if es == [] then map[] else ToMap(es[1..])[Key(es[0]) := Value(es[0])]
  }

  lemma {:induction false} MapHas(es: seq<Str>, k: Str)
    ensures k in ToMap(es) <==> IndexOf(es, k) < |es|
    ensures IndexOf(es, k) < |es| ==> ToMap(es)[k] == Value(es[IndexOf(es, k)])
  {
    if es != [] {
      MapHas(es[1..], k);
    }
  }

  lemma {:induction false} MapAdds(es: seq<Str>, e: Str)
    requires IndexOf(es, Key(e)) == |es|
    ensures ToMap(es + [e]) == ToMap(es)[Key(e) := Value(e)]
  {
    if es == [] {
      assert es + [e] == [e] && [e][1..] == [];
    } else {
      assert (es + [e])[1..] == es[1..] + [e];
      assert IndexOf(es[1..], Key(e)) == |es[1..]|;
      MapAdds(es[1..], e);
    }
  }

  lemma MapMinus(m: map<Str, Str>, a: Str, v: Str, k: Str)
    requires a != k
    ensures (m - {k})[a := v] == m[a := v] - {k}
  {
  }

  lemma RestOk(es: seq<Str>)
    requires EntriesOk(es) && es != []
    ensures EntriesOk(es[1..])
  {
  }

  lemma {:induction false} MapLoses(es: seq<Str>, k: Str)
    requires EntriesOk(es)
    ensures ToMap(Without(es, k)) == ToMap(es) - {k}
  {
    if es != [] {
      RestOk(es);
      if Key(es[0]) == k {
        MapLosesFirst(es);
      } else {
        MapLoses(es[1..], k);
        WithoutFirst(es, k);
        MapMinus(ToMap(es[1..]), Key(es[0]), Value(es[0]), k);
      }
    }
  }

  lemma MapLosesFirst(es: seq<Str>)
    requires EntriesOk(es) && es != []
    ensures ToMap(Without(es, Key(es[0]))) == ToMap(es) - {Key(es[0])}
  {
    var k := Key(es[0]);
    assert es[..0] + es[1..] == es[1..];
    NotLater(es, k);
    MapHas(es[1..], k);
    AddAndLose(ToMap(es[1..]), k, Value(es[0]));
  }

  lemma AddAndLose(m: map<Str, Str>, k: Str, v: Str)
    requires k !in m
    ensures m[k := v] - {k} == m
  {
  }

  lemma WithoutFirst(es: seq<Str>, k: Str)
    requires es != [] && Key(es[0]) != k
    ensures Without(es, k) == [es[0]] + Without(es[1..], k)
    ensures Without(es, k)[1..] == Without(es[1..], k)
  {
    var j := IndexOf(es[1..], k);
    if j < |es| - 1 {
      assert es[..j + 1] + es[j + 2..] == [es[0]] + (es[1..][..j] + es[1..][j + 1..]);
    } else {
      assert es == [es[0]] + es[1..];
    }
  }

  lemma NotLater(es: seq<Str>, k: Str)
    requires EntriesOk(es) && es != [] && Key(es[0]) == k
    ensures IndexOf(es[1..], k) == |es| - 1
  {
    forall i | 0 <= i < |es| - 1 ensures Key(es[1..][i]) != k {
      assert es[1..][i] == es[i + 1];
    }
  }

  lemma WithoutOk(es: seq<Str>, k: Str)
    requires EntriesOk(es)
    ensures EntriesOk(Without(es, k)) && IndexOf(Without(es, k), k) == |Without(es, k)|
  {
    var j, w := IndexOf(es, k), Without(es, k);
    forall i | 0 <= i < |w| ensures w[i] == es[if i < j then i else i + 1] && Key(w[i]) != k {
      if j <= i {
        assert Key(es[i + 1]) != Key(es[j]);
      }
    }
  }

  // ----- the bytes -----

  function Flat(es: seq<Str>): Str {
    if es == [] then [] else es[0] + [0] + Flat(es[1..])
  }

  /** Where entry j starts. */
  function Start(es: seq<Str>, j: nat): nat
    requires j <= |es|
  {
    |Flat(es[..j])|
  }

  lemma {:induction false} FlatSplit(a: seq<Str>, b: seq<Str>)
    ensures Flat(a + b) == Flat(a) + Flat(b)
  {
    if a == [] {
      assert a + b == b;
    } else {
      assert (a + b)[1..] == a[1..] + b;
      FlatSplit(a[1..], b);
      assert a[0] + [0] + (Flat(a[1..]) + Flat(b)) == a[0] + [0] + Flat(a[1..]) + Flat(b);
    }
  }

  lemma FlatOne(e: Str)
    ensures Flat([e]) == e + [0]
  {
    assert [e][1..] == [];
    assert e + [0] + [] == e + [0];
  }

  /** The bytes around entry j. */
  lemma FlatAt(es: seq<Str>, j: nat)
    requires j < |es|
    ensures Flat(es) == Flat(es[..j]) + (es[j] + [0]) + Flat(es[j + 1..])
    ensures Start(es, j + 1) == Start(es, j) + |es[j]| + 1
  {
    assert es == es[..j] + ([es[j]] + es[j + 1..]);
    FlatSplit(es[..j], [es[j]] + es[j + 1..]);
    FlatSplit([es[j]], es[j + 1..]);
    FlatOne(es[j]);
    assert es[..j + 1] == es[..j] + [es[j]];
    FlatSplit(es[..j], [es[j]]);
  }

  /** The environment in memory: the strings, a NUL after them, and two when there are none. */
  ghost predicate Layout(d: Str, es: seq<Str>) {
    && |Flat(es)| + (if es == [] then 2 else 1) <= |d|
    && d[..|Flat(es)|] == Flat(es) && d[|Flat(es)|] == 0 && (es == [] ==> d[1] == 0)
  }

  /** Byte k of entry j, or the NUL that ends it. */
  lemma ByteAt(d: Str, es: seq<Str>, j: nat, k: nat)
    requires Layout(d, es) && j < |es| && k <= |es[j]|
    ensures Start(es, j) + k < |Flat(es)| < |d|
    ensures d[Start(es, j) + k] == if k < |es[j]| then es[j][k] else 0
  {
    FlatAt(es, j);
    var a, b := Flat(es[..j]), Flat(es[j + 1..]);
    assert Flat(es)[|a| + k] == (es[j] + [0])[k];
    assert d[..|Flat(es)|][|a| + k] == d[|a| + k];
  }

  lemma StartOfAll(es: seq<Str>)
    ensures Start(es, 0) == 0 && Start(es, |es|) == |Flat(es)|
  {
    assert es[..|es|] == es;
  }

  /** A NUL in the bytes, other than the last, is followed by something else. */
  lemma {:induction false} OneDoubleNul(es: seq<Str>, i: nat)
    requires forall j :: 0 <= j < |es| ==> NoNul(es[j]) && es[j] != []
    requires i + 1 < |Flat(es)| && Flat(es)[i] == 0
    ensures Flat(es)[i + 1] != 0
  {
    var e, more := es[0], Flat(es[1..]);
    assert forall m :: 0 <= m < |e| ==> Flat(es)[m] == e[m] != 0;
    if i == |e| {
      var f := es[1];
      assert es[1..][0] == f;
      assert Flat(es)[i + 1] == more[0] == f[0];
    } else if i > |e| {
      assert Flat(es)[i] == more[i - |e| - 1] && Flat(es)[i + 1] == more[i - |e|];
      OneDoubleNul(es[1..], i - |e| - 1);
    }
  }

  lemma {:induction false} FlatEnds(es: seq<Str>)
    requires es != []
    ensures |Flat(es)| > 0 && Flat(es)[|Flat(es)| - 1] == 0
  {
    if |es| > 1 {
      FlatEnds(es[1..]);
    } else {
      FlatOne(es[0]);
      assert es == [es[0]];
    }
  }

  // ----- setting a variable -----

  /** The values, each after a space but the first after '='. */
  function Tail(vals: seq<Str>, first: bool): Str
    decreases |vals|
  {
    if vals == [] then [] else [if first then EQUALS else SPACE] + vals[0] + Tail(vals[1..], false)
  }

  function NewEntry(name: Str, vals: seq<Str>): Str {
    name + Tail(vals, true)
  }

  lemma {:induction false} TailNoNul(vals: seq<Str>, first: bool)
    requires forall i :: 0 <= i < |vals| ==> NoNul(vals[i])
    ensures NoNul(Tail(vals, first))
    decreases |vals|
  {
    if vals != [] {
      TailNoNul(vals[1..], false);
    }
  }

  lemma {:induction false} KeyOfPrefix(name: Str, rest: Str)
    requires rest != [] && rest[0] == EQUALS
    ensures Key(name + rest) == Key(name)
    ensures |Key(name)| == |name| ==> Value(name + rest) == rest[1..]
  {
    if name == [] {
      assert name + rest == rest;
    } else if name[0] != EQUALS {
      assert (name + rest)[1..] == name[1..] + rest;
      KeyOfPrefix(name[1..], rest);
    }
    var k := Key(name);
    if |k| == |name| {
      assert (name + rest)[|name| + 1..] == rest[1..];
    }
  }

  /** A new entry is one, for the variable that its name stands for. */
  lemma NewEntryOk(name: Str, vals: seq<Str>)
    requires NoNul(name) && vals != [] && forall i :: 0 <= i < |vals| ==> NoNul(vals[i])
    ensures EntryOk(NewEntry(name, vals)) && Key(NewEntry(name, vals)) == Key(name)
  {
    var t := Tail(vals, true);
    TailNoNul(vals, true);
    KeyOfPrefix(name, t);
    assert NoNul(name + t);
  }

  lemma {:induction false} FirstTail(vals: seq<Str>)
    requires vals != []
    ensures Tail(vals, true) != [] && Tail(vals, true)[1..] == vals[0] + Tail(vals[1..], false)
  {
  }

  /** A name without '=' stands for itself, and its value is the arguments joined by spaces. */
  lemma {:induction false} NewEntryValue(name: Str, vals: seq<Str>)
    requires vals != [] && EQUALS !in name
    ensures Key(name) == name && Value(NewEntry(name, vals)) == vals[0] + Tail(vals[1..], false)
  {
    NoEquals(name);
    KeyOfPrefix(name, Tail(vals, true));
    FirstTail(vals);
  }

  lemma NoEquals(name: Str)
    ensures EQUALS !in name ==> Key(name) == name
  {
    assert |Key(name)| < |name| ==> name[|Key(name)|] in name;
  }

  lemma AddedOk(es: seq<Str>, e: Str)
    requires EntriesOk(es) && EntryOk(e) && IndexOf(es, Key(e)) == |es|
    ensures EntriesOk(es + [e])
  {
  }

  // ----- what setenv does to the entries -----

  const SERIAL: Str := [115, 101, 114, 105, 97, 108, 35]
  const ETHADDR: Str := [101, 116, 104, 97, 100, 100, 114]
  const STDIN: Str := [115, 116, 100, 105, 110]
  const STDOUT: Str := [115, 116, 100, 111, 117, 116]
  const STDERR: Str := [115, 116, 100, 101, 114, 114]
  const BAUDRATE: Str := [98, 97, 117, 100, 114, 97, 116, 101]

  /** Whether a bound variable may not be changed: serial# and ethaddr are set only once, and the
      device refuses a console or a baud rate, or the console would be deleted. */
  predicate Refuses(name: Str, vals: seq<Str>, refused: bool) {
    || name == SERIAL || name == ETHADDR
    || ((name == STDIN || name == STDOUT || name == STDERR) && (vals == [] || refused))
    || (name == BAUDRATE && refused)
  }

  /** A call, with the answer of the device it may switch. */
  datatype SetCall = SetCall(name: Str, vals: seq<Str>, refused: bool)

  predicate CallOk(c: SetCall) {
    NoNul(c.name) && forall i :: 0 <= i < |c.vals| ==> NoNul(c.vals[i])
  }

  datatype Outcome = Outcome(rc: int, entries: seq<Str>)

  /** The old definition goes; the new one, if any, comes last, unless it does not fit. */
  function SetTo(es: seq<Str>, size: nat, c: SetCall): Outcome {
    var k := Key(c.name);
    if IndexOf(es, k) < |es| && Refuses(c.name, c.vals, c.refused) then Outcome(1, es)
    else if c.vals == [] then Outcome(0, Without(es, k))
    else if |Flat(Without(es, k))| + |NewEntry(c.name, c.vals)| + 2 > size then Outcome(1, Without(es, k))
    else Outcome(0, Without(es, k) + [NewEntry(c.name, c.vals)])
  }

  /** What setenv does to the finite map: it changes the variable its name stands for and no other. A success
      binds it, or removes it when no value is given; a failure leaves the map or removes it. */
  lemma SetMeans(es: seq<Str>, size: nat, c: SetCall)
    requires EntriesOk(es) && CallOk(c)
    ensures var r, k := SetTo(es, size, c), Key(c.name);
            && EntriesOk(r.entries)
            && (r.rc == 0 && c.vals == [] ==> ToMap(r.entries) == ToMap(es) - {k})
            && (r.rc == 0 && c.vals != [] ==> ToMap(r.entries) == ToMap(es)[k := Value(NewEntry(c.name, c.vals))])
            && (r.rc != 0 ==> r.entries == es || ToMap(r.entries) == ToMap(es) - {k})
  {
    var k := Key(c.name);
    var w := Without(es, k);
    MapLoses(es, k);
    WithoutOk(es, k);
    if c.vals != [] {
      var e := NewEntry(c.name, c.vals);
      NewEntryOk(c.name, c.vals);
      MapAdds(w, e);
      AddedOk(w, e);
      Rebind(ToMap(es), k, Value(e));
    }
  }

  lemma Rebind(m: map<Str, Str>, k: Str, v: Str)
    ensures (m - {k})[k := v] == m[k := v]
  {
  }

  /** The value of a variable, or none. */
  function Lookup(es: seq<Str>, k: Str): seq<Str> {
    var m := ToMap(es);
    if k in m then [m[k]] else []
  }

  /** When a call leaves a bound serial# or ethaddr as it is: unless its name only begins with it, as in
      `serial#=x`, and the call does not happen to give it the same value. */
  lemma {:induction false} OnceKept(es: seq<Str>, size: nat, c: SetCall, n: Str)
    requires EntriesOk(es) && CallOk(c) && n in ToMap(es) && (n == SERIAL || n == ETHADDR)
    ensures Lookup(SetTo(es, size, c).entries, n) == Lookup(es, n) <==>
              || Key(c.name) != n || c.name == n
              || (c.vals != [] && Value(NewEntry(c.name, c.vals)) == ToMap(es)[n]
                  && |Flat(Without(es, n))| + |NewEntry(c.name, c.vals)| + 2 <= size)
  {
    if Key(c.name) != n {
      OtherKept(es, size, c, n);
    } else if c.name == n {
      OnceRefused(es, size, c);
    } else {
      Replaced(es, size, c, n);
    }
  }

  lemma {:induction false} OnceRefused(es: seq<Str>, size: nat, c: SetCall)
    requires (c.name == SERIAL || c.name == ETHADDR) && c.name in ToMap(es)
    ensures SetTo(es, size, c) == Outcome(1, es)
  {
    PlainNames();
    NoEquals(c.name);
    MapHas(es, c.name);
  }

  lemma OtherKept(es: seq<Str>, size: nat, c: SetCall, n: Str)
    requires EntriesOk(es) && CallOk(c) && Key(c.name) != n
    ensures Lookup(SetTo(es, size, c).entries, n) == Lookup(es, n)
  {
    SetMeans(es, size, c);
  }

  lemma Replaced(es: seq<Str>, size: nat, c: SetCall, n: Str)
    requires EntriesOk(es) && CallOk(c) && n in ToMap(es) && Key(c.name) == n && c.name != n
    ensures var r := SetTo(es, size, c);
            Lookup(r.entries, n) == if r.rc == 0 && c.vals != [] then [Value(NewEntry(c.name, c.vals))] else []
  {
    SetMeans(es, size, c);
    HasEquals(c.name);
    NotRefused(c);
    MapLoses(es, n);
  }

  /** The calls that fail and leave a bound variable as it was: those of serial# and ethaddr, those that would remove
      a console, and those of a console or of the baud rate that the device refuses. */
  lemma {:induction false} RefusedExactly(es: seq<Str>, size: nat, c: SetCall)
    requires EntriesOk(es) && CallOk(c) && Key(c.name) in ToMap(es)
    ensures var r, console := SetTo(es, size, c), c.name == STDIN || c.name == STDOUT || c.name == STDERR;
            && (r.rc != 0 && Lookup(r.entries, Key(c.name)) == Lookup(es, Key(c.name)) <==>
                  || c.name == SERIAL || c.name == ETHADDR
                  || (console && c.vals == []) || ((console || c.name == BAUDRATE) && c.refused))
            && (r.rc != 0 && Lookup(r.entries, Key(c.name)) == Lookup(es, Key(c.name)) ==> r.entries == es)
  {
    SetMeans(es, size, c);
    MapHas(es, Key(c.name));
    MapLoses(es, Key(c.name));
  }

  /** Any other call fails only if no buffer of that size holds the entries it is to lead to. */
  lemma {:induction false} OverflowIsNoRoom(es: seq<Str>, size: nat, c: SetCall)
    requires EntriesOk(es) && CallOk(c)
    requires var r, k := SetTo(es, size, c), Key(c.name);
             k in ToMap(es) && r.rc != 0 ==> Lookup(r.entries, k) != Lookup(es, k)
    ensures var after := Without(es, Key(c.name)) + [NewEntry(c.name, c.vals)];
            SetTo(es, size, c).rc != 0 <==> c.vals != [] && forall d: Str :: |d| == size ==> !Layout(d, after)
  {
    MapHas(es, Key(c.name));
    var w, e := Without(es, Key(c.name)), NewEntry(c.name, c.vals);
    FlatSplit(w, [e]);
    FlatOne(e);
    var f, n := Flat(w + [e]), |Flat(w + [e])|;
    assert n == |Flat(w)| + |e| + 1;
    if n + 1 <= size {
      var d := f + seq(size - n, i => 0 as bv8);
      assert d[..n] == f && Layout(d, w + [e]);
    }
  }

  /** The names that can be refused contain no '='. */
  lemma PlainNames()
    ensures EQUALS !in SERIAL && EQUALS !in ETHADDR && EQUALS !in STDIN
    ensures EQUALS !in STDOUT && EQUALS !in STDERR && EQUALS !in BAUDRATE
  {
  }

  lemma NotRefused(c: SetCall)
    requires EQUALS in c.name
    ensures !Refuses(c.name, c.vals, c.refused)
  {
    PlainNames();
  }

  lemma HasEquals(name: Str)
    requires Key(name) != name
    ensures EQUALS in name
  {
    NoEquals(name);
  }

  /** The entry name=value. */
  function Entry(name: Str, value: Str): Str {
    name + ([EQUALS] + value)
  }

  /** An environment of one variable. */
  lemma {:induction false} Single(name: Str, v: Str)
    requires NoNul(name) && NoNul(v) && EQUALS !in name
    ensures EntryOk(Entry(name, v)) && Key(Entry(name, v)) == name && Value(Entry(name, v)) == v
    ensures ToMap([Entry(name, v)]) == map[name := v] && IndexOf([Entry(name, v)], name) == 0
    ensures Without([Entry(name, v)], name) == []
  {
    NoEquals(name);
    KeyOfPrefix(name, [EQUALS] + v);
    assert [Entry(name, v)][1..] == [];
  }

  /** A name that goes past an '=' evades the check: whatever serial# or ethaddr was, `setenv serial#=u v` makes
      it u=v. */
  lemma {:induction false} OnceCanChange(n: Str, was: Str, u: Str, v: Str, size: nat)
    requires n == SERIAL || n == ETHADDR
    requires NoNul(was) && NoNul(u) && NoNul(v) && |n| + |u| + |v| + 5 <= size
    ensures var es, c := [Entry(n, was)], SetCall(Entry(n, u), [v], false);
            && EntriesOk(es) && CallOk(c) && Lookup(es, n) == [was]
            && SetTo(es, size, c) == Outcome(0, [Entry(n, u + [EQUALS] + v)])
            && Lookup(SetTo(es, size, c).entries, n) == [u + [EQUALS] + v]
  {
    PlainNames();
    AnyCanChange(n, was, u, v, size);
  }

  lemma {:induction false} AnyCanChange(n: Str, was: Str, u: Str, v: Str, size: nat)
    requires EQUALS !in n && n != [] && NoNul(n)
    requires NoNul(was) && NoNul(u) && NoNul(v) && |n| + |u| + |v| + 5 <= size
    ensures var es, c := [Entry(n, was)], SetCall(Entry(n, u), [v], false);
            && EntriesOk(es) && CallOk(c) && Lookup(es, n) == [was]
            && SetTo(es, size, c) == Outcome(0, [Entry(n, u + [EQUALS] + v)])
            && Lookup(SetTo(es, size, c).entries, n) == [u + [EQUALS] + v]
  {
    var c := SetCall(Entry(n, u), [v], false);
    Single(n, was);
    Single(n, u);
    Single(n, u + [EQUALS] + v);
    Joined(n, u, v);
    assert c.name[|n|] == EQUALS;
    OnlyOneSet([Entry(n, was)], c, size);
  }

  /** setenv of the only variable, by a name with '=' in it. */
  lemma {:induction false} OnlyOneSet(es: seq<Str>, c: SetCall, size: nat)
    requires EQUALS in c.name && c.vals != [] && Without(es, Key(c.name)) == []
    requires |NewEntry(c.name, c.vals)| + 2 <= size
    ensures SetTo(es, size, c) == Outcome(0, [NewEntry(c.name, c.vals)])
  {
    NotRefused(c);
  }

  lemma {:induction false} Joined(n: Str, u: Str, v: Str)
    ensures NewEntry(Entry(n, u), [v]) == Entry(n, u + [EQUALS] + v)
  {
    assert Tail([v], true) == [EQUALS] + v;
    assert n + ([EQUALS] + u) + ([EQUALS] + v) == n + ([EQUALS] + (u + [EQUALS] + v));
  }

  /** The entries after a run of calls. */
  function Sets(es: seq<Str>, size: nat, calls: seq<SetCall>): seq<Str>
    decreases |calls|
  {
    if calls == [] then es else Sets(SetTo(es, size, calls[0]).entries, size, calls[1..])
  }

  /** Over any run of calls with names without '=', a bound serial# or ethaddr keeps its value. */
  lemma {:induction false} OnceNeverChanges(es: seq<Str>, size: nat, calls: seq<SetCall>, n: Str)
    requires EntriesOk(es) && n in ToMap(es) && (n == SERIAL || n == ETHADDR)
    requires forall i :: 0 <= i < |calls| ==> CallOk(calls[i]) && EQUALS !in calls[i].name
    ensures EntriesOk(Sets(es, size, calls)) && Lookup(Sets(es, size, calls), n) == Lookup(es, n)
    decreases |calls|
  {
    if calls != [] {
      NoEquals(calls[0].name);
      SetMeans(es, size, calls[0]);
      OnceKept(es, size, calls[0], n);
      OnceNeverChanges(SetTo(es, size, calls[0]).entries, size, calls[1..], n);
    }
  }

  lemma {:induction false} SetsGrow(es: seq<Str>, size: nat, calls: seq<SetCall>, c: SetCall)
    ensures Sets(es, size, calls + [c]) == SetTo(Sets(es, size, calls), size, c).entries
    decreases |calls|
  {
    if calls == [] {
      assert calls + [c] == [c] && [c][1..] == [];
    } else {
      assert (calls + [c])[1..] == calls[1..] + [c];
      SetsGrow(SetTo(es, size, calls[0]).entries, size, calls[1..], c);
    }
  }

  lemma SetsNext(es: seq<Str>, size: nat, calls: seq<SetCall>, n: nat)
    requires n < |calls|
    ensures Sets(es, size, calls[..n + 1]) == SetTo(Sets(es, size, calls[..n]), size, calls[n]).entries
  {
    assert calls[..n + 1] == calls[..n] + [calls[n]];
    SetsGrow(es, size, calls[..n], calls[n]);
  }

  lemma AllCalls(calls: seq<SetCall>)
    ensures calls[..0] == [] && calls[..|calls|] == calls
  {
  }
}
