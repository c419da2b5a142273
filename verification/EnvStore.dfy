/** setenv and getenv on the environment in memory, edited in place. */
module EnvStore {
  import opened EnvEntries
  import Crc32
  import Crc32Register

  // ----- matching names -----

  /** Character k of a C string. */
  function CharAt(s: Str, k: nat): bv8 {
    if k < |s| then s[k] else 0
  }

  lemma {:induction false} KeyIs(s: Str, k: nat)
    requires k <= |s| && (forall i :: 0 <= i < k ==> s[i] != EQUALS) && (k < |s| ==> s[k] == EQUALS)
    ensures Key(s) == s[..k]
  {
    if k > 0 {
      KeyIs(s[1..], k - 1);
      assert s[..k] == [s[0]] + s[1..][..k - 1];
    }
  }

  /** How far a name agrees with an entry. */
  ghost predicate AgreesTo(name: Str, e: Str, k: nat) {
    k <= |name| && k <= |Key(e)| && name[..k] == e[..k]
  }

  lemma {:induction false} AgreeMore(name: Str, e: Str, k: nat)
    requires AgreesTo(name, e, k) && EntryOk(e) && NoNul(name)
    ensures k < |Key(e)| ==> e[k] != EQUALS && (CharAt(name, k) == e[k] ==> AgreesTo(name, e, k + 1))
    ensures k == |Key(e)| ==> e[k] == EQUALS
    ensures k == |Key(e)| ==> (Key(name) == Key(e) <==> k == |name| || name[k] == EQUALS)
    ensures k < |Key(e)| && CharAt(name, k) != e[k] ==> Key(name) != Key(e)
  {
    var key := Key(e);
    if k == |key| {
      WholeKey(name, e);
    } else {
      assert key[k] in key && e[k] == key[k];
      assert k < |Key(name)| ==> name[k] == Key(name)[k];
      if CharAt(name, k) == e[k] {
        assert name[..k + 1] == name[..k] + [name[k]] && e[..k + 1] == e[..k] + [e[k]];
      }
    }
  }

  /** A name that begins with the key of an entry has that key exactly when it ends there. */
  lemma {:induction false} WholeKey(name: Str, e: Str)
    requires AgreesTo(name, e, |Key(e)|) && EntryOk(e)
    ensures var k := |Key(e)|; Key(name) == Key(e) <==> k == |name| || name[k] == EQUALS
  {
    var key, k := Key(e), |Key(e)|;
    assert forall i :: 0 <= i < k ==> key[i] in key && name[i] == name[..k][i] == key[i];
    if k == |name| || name[k] == EQUALS {
      KeyIs(name, k);
    }
  }

  // ----- the buffer -----

  /** Copied values so far. */
  lemma {:induction false} TailGrows(vals: seq<Str>, v: Str, first: bool)
    ensures Tail(vals + [v], first) == Tail(vals, first) + [if first && vals == [] then EQUALS else SPACE] + v
    decreases |vals|
  {
    if vals == [] {
      assert vals + [v] == [v] && [v][1..] == [];
    } else {
      assert (vals + [v])[1..] == vals[1..] + [v];
      TailGrows(vals[1..], v, false);
    }
  }

  /** strlen of what is appended, with one NUL more. */
  function TailLength(vals: seq<Str>): nat {
    if vals == [] then 0 else |vals[0]| + 1 + TailLength(vals[1..])
  }

  lemma {:induction false} TailLengthIs(vals: seq<Str>, first: bool)
    ensures |Tail(vals, first)| == TailLength(vals)
    decreases |vals|
  {
    if vals != [] {
      TailLengthIs(vals[1..], false);
    }
  }

  /** Deleting an entry moves those after it to its place. */
  lemma Moved(d: Str, d': Str, es: seq<Str>, j: nat)
    requires Layout(d, es) && j + 1 < |es| && |d'| == |d|
    requires var p, r := Start(es, j), Flat(es[j + 1..]);
             p + |r| < |d| && d'[..p + |r|] == d[..p] + r && d'[p + |r|] == 0
    ensures Layout(d', es[..j] + es[j + 1..])
  {
    var p, r := Start(es, j), Flat(es[j + 1..]);
    FlatAt(es, j);
    FlatSplit(es[..j], es[j + 1..]);
    assert d[..p] == d[..|Flat(es)|][..p] == Flat(es[..j]);
  }

  lemma MovedTo(d: Str, d': Str, es: seq<Str>, j: nat, end: nat)
    requires Layout(d, es) && j + 1 < |es| && |d'| == |d|
    requires var r := Flat(es[j + 1..]);
             end == Start(es, j) + |r| < |d| && d'[..end] == d[..Start(es, j)] + r && d'[end..] == d[end..]
    ensures Layout(d'[end := 0], es[..j] + es[j + 1..]) && d'[end := 0] == Deleted(d, es, j)
  {
    var c := d'[end := 0];
    assert c[..end] == d'[..end] && c[end + 1..] == d'[end..][1..] == d[end + 1..];
    Moved(d, c, es, j);
  }

  lemma CutLast(d: Str, d': Str, es: seq<Str>)
    requires Layout(d, es) && es != [] && |d'| == |d|
    requires var p := Start(es, |es| - 1);
             p < |d| && d'[..p] == d[..p] && d'[p] == 0 && (p == 0 ==> |d| > 1 && d'[1] == 0)
    ensures Layout(d', es[..|es| - 1])
  {
    var j := |es| - 1;
    FlatAt(es, j);
    assert d[..Start(es, j)] == d[..|Flat(es)|][..Start(es, j)] == Flat(es[..j]);
    if j > 0 {
      FlatEnds(es[..j]);
    }
  }

  /** The buffer after entry j has been deleted. */
  ghost function Deleted(d: Str, es: seq<Str>, j: nat): (r: Str)
    requires Layout(d, es) && j < |es|
    ensures |r| == |d|
  {
    FlatAt(es, j);
    StartOfAll(es);
    var p, rest := Start(es, j), Flat(es[j + 1..]);
    if j + 1 < |es| then d[..p] + rest + [0] + d[p + |rest| + 1..]
    else if p == 0 then d[0 := 0][1 := 0]
    else d[p := 0]
  }

  /** The buffer after a call that fails: the variable is gone, unless the call was refused or there was none. */
  ghost function Failing(d: Str, es: seq<Str>, name: Str, vals: seq<Str>, refused: bool): Str
    requires Layout(d, es)
  {
    var j := IndexOf(es, Key(name));
    if j < |es| && !Refuses(name, vals, refused) then Deleted(d, es, j) else d
  }

  /** Whether the stored checksum is still right after a call that fails. */
  ghost predicate KeepsCrc(d: Str, es: seq<Str>, name: Str, vals: seq<Str>, refused: bool)
    requires Layout(d, es)
  {
    Crc32Register.Crc(Crc32.V(0), Failing(d, es, name, vals, refused)) == Crc32Register.Crc(Crc32.V(0), d)
  }

  /** It is when nothing was deleted, and certainly not when the last variable was. */
  lemma {:induction false} WhenCrcIsKept(d: Str, es: seq<Str>, name: Str, vals: seq<Str>, refused: bool)
    requires Layout(d, es) && EntriesOk(es)
    ensures var j := IndexOf(es, Key(name));
            && (j == |es| || Refuses(name, vals, refused) ==> KeepsCrc(d, es, name, vals, refused))
            && (j + 1 == |es| && !Refuses(name, vals, refused) ==> !KeepsCrc(d, es, name, vals, refused))
  {
    var j := IndexOf(es, Key(name));
    if j + 1 == |es| && !Refuses(name, vals, refused) {
      CutLastIsSeen(Crc32.V(0), d, es);
    }
  }

  /** Deleting the last entry changes its first byte, and the next at most. */
  lemma {:induction false} CutLastIsSeen(c: nat, d: Str, es: seq<Str>)
    requires Layout(d, es) && EntriesOk(es) && es != []
    ensures Crc32Register.Crc(c, Deleted(d, es, |es| - 1)) != Crc32Register.Crc(c, d)
  {
    var j := |es| - 1;
    var d', p := Deleted(d, es, j), Start(es, j);
    ByteAt(d, es, j, 0);
    assert d[p] == es[j][0] != 0 && d'[p] == 0;
    Crc32Register.FourBytesChangeCrc(c, d', d, p);
  }

  lemma Appended(d: Str, d': Str, es: seq<Str>, e: Str)
    requires Layout(d, es) && |d'| == |d| && |Flat(es)| + |e| + 1 < |d|
    requires d'[..|Flat(es)| + |e|] == Flat(es) + e && d'[|Flat(es)| + |e|] == 0 && d'[|Flat(es)| + |e| + 1] == 0
    ensures Layout(d', es + [e])
  {
    FlatSplit(es, [e]);
    FlatOne(e);
    var n := |Flat(es)| + |e|;
    assert d'[..n + 1] == d'[..n] + [d'[n]];
    assert Flat(es) + (e + [0]) == (Flat(es) + e) + [0];
  }

  class Env {
    const data: array<bv8>
    const crc_table: array<bv32>
    var crc: bv32

    /** The entries that the buffer holds. */
    ghost var entries: seq<Str>

    ghost predicate Valid()
      reads this, data, crc_table
    {
      && data.Length >= 2 && Layout(data[..], entries) && EntriesOk(entries)
      && Crc32.TableOk(crc_table)
    }

    /** The stored checksum is that of the buffer. */
    ghost predicate CrcOk()
      reads this, data
    {
      Crc32.V(crc) == Crc32Register.Crc(Crc32.V(0), data[..])
    }

    constructor (data: array<bv8>, crc_table: array<bv32>, ghost entries: seq<Str>)
      requires data.Length >= 2 && Layout(data[..], entries) && EntriesOk(entries) && Crc32.TableOk(crc_table)
      ensures Valid() && this.data == data && this.entries == entries
    {
      this.data, this.crc_table, this.entries, crc := data, crc_table, entries, 0;
    }

    lemma DataAt(j: nat, k: nat)
      requires Valid() && j < |entries| && k <= |entries[j]|
      ensures Start(entries, j) + k < |Flat(entries)| < data.Length
      ensures data[Start(entries, j) + k] == if k < |entries[j]| then entries[j][k] else 0
    {
      ByteAt(data[..], entries, j, k);
    }

    /** for (nxt = env; *nxt; ++nxt) ; */
    method NextNul(env: nat, ghost j: nat) returns (nxt: nat)
      requires Valid() && j < |entries| && env == Start(entries, j)
      ensures nxt == env + |entries[j]| && nxt < data.Length
    {
      nxt := env;
      DataAt(j, 0);
      while data[nxt] != 0
        invariant env <= nxt <= env + |entries[j]| && nxt < data.Length
        decreases env + |entries[j]| - nxt
      {
        DataAt(j, nxt - env);
        nxt := nxt + 1;
        DataAt(j, nxt - env);
      }
      DataAt(j, nxt - env);
    }

    /** envmatch: the index of the value, or -1. */
    method EnvMatch(s1: Str, i2: nat, ghost j: nat) returns (r: int)
      requires Valid() && j < |entries| && i2 == Start(entries, j) && NoNul(s1)
      ensures r == if Key(s1) == Key(entries[j]) then i2 + |Key(entries[j])| + 1 else -1
    {
      var i, k := i2, 0;
      ghost var e := entries[j];
      DataAt(j, 0);
      while CharAt(s1, k) == data[i]
        invariant AgreesTo(s1, e, k) && i == i2 + k < data.Length
        decreases |s1| - k
      {
        DataAt(j, k);
        AgreeMore(s1, e, k);
        i := i + 1;
        if CharAt(s1, k) == EQUALS {
          return i;
        }
        k := k + 1;
        DataAt(j, k);
      }
      DataAt(j, k);
      AgreeMore(s1, e, k);
      i := i + 1;
      r := if CharAt(s1, k) == 0 && data[i - 1] == EQUALS then i else -1;
    }

    /** The search of _do_setenv: the start and the end of the entry for a name, if there is one. */
    method Find(name: Str) returns (oldval: int, env: nat, nxt: nat, ghost j: nat)
      requires Valid() && NoNul(name)
      ensures j == IndexOf(entries, Key(name)) && (oldval >= 0 <==> j < |entries|)
      ensures j < |entries| ==> env == Start(entries, j) && nxt == env + |entries[j]| && nxt < data.Length
      ensures j < |entries| ==> oldval == env + |Key(name)| + 1
    {
      oldval, env, nxt, j := -1, 0, 0, 0;
      StartOfAll(entries);
      while data[env] != 0
        invariant NoneBefore(entries, Key(name), j) && env == Start(entries, j) < data.Length && oldval == -1
        decreases |entries| - j
      {
        StartOfAll(entries);
        nxt := NextNul(env, j);
        oldval := EnvMatch(name, env, j);
        if oldval >= 0 {
          FoundAt(entries, Key(name), j);
          return;
        }
        FlatAt(entries, j);
        NoneYet(entries, Key(name), j);
        env, j := nxt + 1, j + 1;
        StartOfAll(entries);
      }
      if j < |entries| {
        DataAt(j, 0);
      }
      FoundAt(entries, Key(name), j);
    }

    /** Deletes the entry between env and nxt. */
    method Delete(env0: nat, nxt0: nat, ghost j: nat)
      requires Valid() && j < |entries| && env0 == Start(entries, j) && nxt0 == env0 + |entries[j]| < data.Length
      modifies this`entries, data
      ensures Valid() && entries == old(entries)[..j] + old(entries)[j + 1..] && crc == old(crc)
      ensures data[..] == Deleted(old(data[..]), old(entries), j)
    {
      var env, nxt := env0, nxt0 + 1;
      ghost var d, es := data[..], entries;
      FlatAt(entries, j);
      StartOfAll(entries);
      if j + 1 < |entries| {
        DataAt(j + 1, 0);
      }
      if data[nxt] == 0 {
        CutOff(env, j);
        assert es[..j] + es[j + 1..] == es[..|es| - 1];
      } else {
        MoveDown(env, nxt, j);
      }
      entries := es[..j] + es[j + 1..];
      StillOk(es, j);
    }

    /** The entries after j come in its place. */
    method MoveDown(env0: nat, nxt: nat, ghost j: nat)
      requires Valid() && j + 1 < |entries| && env0 == Start(entries, j) && nxt == Start(entries, j + 1)
      modifies data
      ensures Layout(data[..], entries[..j] + entries[j + 1..])
      ensures data[..] == Deleted(old(data[..]), entries, j)
    {
      ghost var d := data[..];
      FlatAt(entries, j);
      RestEnds(d, entries, j);
      var env := Shift(env0, nxt, Flat(entries[j + 1..]));
      ghost var d' := data[..];
      data[env + 1] := 0;
      assert data[..] == d'[env + 1 := 0];
      MovedTo(d, d', entries, j, env + 1);
    }

    /** The last entry goes: its first byte becomes the NUL that ends the list. */
    method CutOff(env0: nat, ghost j: nat)
      requires Valid() && j + 1 == |entries| && env0 == Start(entries, j) && env0 + 1 < data.Length
      modifies data
      ensures Layout(data[..], entries[..j])
      ensures data[..] == Deleted(old(data[..]), entries, j)
    {
      var env := env0;
      ghost var d := data[..];
      if env > 0 {
        env := env - 1;
      } else {
        data[env] := 0;
      }
      env := env + 1;
      data[env] := 0;
      FirstStart(entries, j);
      CutLast(d, data[..], entries);
    }

    /** Moves the bytes r, which end with the only double NUL after nxt0, down to env0. */
    method Shift(env0: nat, nxt0: nat, ghost r: Str) returns (env: nat)
      requires env0 < nxt0 && EndsAt(data[..], nxt0, r)
      modifies data
      ensures env + 1 == env0 + |r| < data.Length && data[..env + 1] == old(data[..env0]) + r
      ensures data[env + 1..] == old(data[env + 1..])
    {
      ghost var d := data[..];
      var nxt := nxt0;
      env := env0;
      while true
        invariant env0 <= env < env0 + |r| && nxt == nxt0 + (env - env0)
        invariant data[..env] == d[..env0] + r[..env - env0] && data[env..] == d[env..]
        decreases env0 + |r| - env
      {
        ghost var t := env - env0;
        NextByte(d, nxt0, r, t);
        MoveOne(env, nxt, d, d[..env0] + r[..t]);
        nxt := nxt + 1;
        assert r[..t + 1] == r[..t] + [r[t]];
        if data[env] == 0 && data[nxt] == 0 {
          assert r[..t + 1] == r;
          return;
        }
        env := env + 1;
      }
    }

    /** *env = *nxt */
    method MoveOne(env: nat, nxt: nat, ghost d: Str, ghost w: Str)
      requires |d| == data.Length && env < nxt && nxt + 1 < |d| && data[..env] == w && data[env..] == d[env..]
      modifies data
      ensures data[env] == d[nxt] && data[nxt + 1] == d[nxt + 1]
      ensures data[..env + 1] == w + [d[nxt]] && data[env + 1..] == d[env + 1..]
    {
      StillThere(data[..], d, env, nxt);
      data[env] := data[nxt];
      OneMoved(data[..], w, d[nxt], env);
    }

    /** for (env = env_data; *env || *(env + 1); ++env); if (env > env_data) ++env; */
    method FindEnd() returns (env: nat)
      requires Valid()
      ensures env == |Flat(entries)|
    {
      env := 0;
      ghost var n := |Flat(entries)|;
      while data[env] != 0 || data[env + 1] != 0
        invariant entries != [] ==> env < n
        invariant entries == [] ==> env == 0
        decreases n - env
      {
        NotTheEnd(data[..], entries, env);
        env := env + 1;
      }
      AtTheEnd(data[..], entries, env);
      if env > 0 {
        env := env + 1;
      }
    }

    /** while ((*env = *s++) != 0) env++; */
    method CopyString(env0: nat, s: Str) returns (env: nat)
      requires env0 + |s| < data.Length && NoNul(s)
      modifies data
      ensures env == env0 + |s| && data[..env] == old(data[..env0]) + s && data[env] == 0
    {
      env := env0;
      var k := 0;
      while true
        invariant env == env0 + k && k <= |s| && data[..env] == old(data[..env0]) + s[..k]
        decreases |s| - k
      {
        data[env] := CharAt(s, k);
        if data[env] == 0 {
          assert s[..k] == s;
          return;
        }
        assert data[..env + 1] == data[..env] + [s[k]];
        assert s[..k + 1] == s[..k] + [s[k]];
        env, k := env + 1, k + 1;
      }
    }

    /** What is appended: the name, and the values after '=' and spaces. */
    method Append(env0: nat, name: Str, vals: seq<Str>)
      requires Valid() && env0 == |Flat(entries)| && NoNul(name) && vals != []
      requires forall i :: 0 <= i < |vals| ==> NoNul(vals[i])
      requires env0 + |NewEntry(name, vals)| + 1 < data.Length
      modifies data
      ensures Layout(data[..], entries + [NewEntry(name, vals)])
    {
      ghost var d, w := data[..], Flat(entries);
      assert data[..env0] == w;
      var env := CopyString(env0, name);
      env := AppendValues(env, name, vals, w);
      data[env + 1] := 0;
      Appended(d, data[..], entries, NewEntry(name, vals));
    }

    /** The loop over the values. */
    method AppendValues(env0: nat, name: Str, vals: seq<Str>, ghost w: Str) returns (env: nat)
      requires forall i :: 0 <= i < |vals| ==> NoNul(vals[i])
      requires env0 == |w| + |name| < data.Length && data[..env0] == w + name && data[env0] == 0
      requires |w| + |NewEntry(name, vals)| + 1 < data.Length
      modifies data
      ensures env == |w| + |NewEntry(name, vals)| && data[..env] == w + NewEntry(name, vals) && data[env] == 0
    {
      env := env0;
      TailLengthIs(vals, true);
      assert Tail(vals[..0], true) == [];
      assert w + NewEntry(name, vals[..0]) == w + name;
      for i := 0 to |vals|
        invariant env == |w| + |NewEntry(name, vals[..i])| && env + 1 < data.Length
        invariant data[..env] == w + NewEntry(name, vals[..i]) && data[env] == 0
      {
        PartFits(name, vals, i);
        env := AppendValue(env, vals[i], i == 0, w + NewEntry(name, vals[..i]));
        AppendedPart(w, name, vals, i);
      }
      assert vals[..|vals|] == vals;
    }

    method AppendValue(env0: nat, val: Str, first: bool, ghost w: Str) returns (env: nat)
      requires env0 + 1 + |val| < data.Length && NoNul(val) && data[..env0] == w
      modifies data
      ensures env == env0 + 1 + |val| && data[..env] == w + [if first then EQUALS else SPACE] + val && data[env] == 0
    {
      data[env0] := if first then EQUALS else SPACE;
      OneMoved(data[..], w, data[env0], env0);
      env := CopyString(env0 + 1, val);
    }

    /** "environment overflow": whether name, '=', values and the two NULs do not fit at env. */
    method Overflows(env: nat, name: Str, vals: seq<Str>) returns (r: bool)
      requires env <= data.Length
      ensures r <==> env + |NewEntry(name, vals)| + 2 > data.Length
    {
      var len := |name| + 2;
      for i := 0 to |vals|
        invariant len == |name| + 2 + |Tail(vals[..i], true)|
      {
        len := len + |vals[i]| + 1;
        assert vals[..i + 1] == vals[..i] + [vals[i]];
        TailGrows(vals[..i], vals[i], true);
      }
      assert vals[..|vals|] == vals;
      r := len > data.Length - env;
    }

    /** env_crc_update */
    method UpdateCrc()
      requires Valid()
      modifies this`crc
      ensures Valid() && CrcOk()
    {
      crc := Crc32.Crc32(0, data[..], crc_table);
    }

    /** _do_setenv: `refused` is the answer of the console or of the baud rate table. */
    method SetEnv(name: Str, vals: seq<Str>, refused: bool) returns (rc: int)
      requires Valid() && CallOk(SetCall(name, vals, refused))
      modifies this`entries, this`crc, data
      ensures Valid() && Outcome(rc, entries) == SetTo(old(entries), data.Length, SetCall(name, vals, refused))
      ensures rc == 0 ==> CrcOk()
      ensures rc != 0 ==> crc == old(crc) && data[..] == Failing(old(data[..]), old(entries), name, vals, refused)
      ensures rc != 0 && old(CrcOk()) ==>
                (CrcOk() <==> KeepsCrc(old(data[..]), old(entries), name, vals, refused))
    {
      var oldval, env, nxt;
      ghost var j;
      oldval, env, nxt, j := Find(name);
      if oldval >= 0 {
        var no := MayNot(name, vals, refused);
        if no {
          return 1;
        }
        Delete(env, nxt, j);
      }
      rc := Define(name, vals, refused, old(entries));
    }

    /** What is checked before a variable that exists is overwritten. */
    method MayNot(name: Str, vals: seq<Str>, refused: bool) returns (no: bool)
      ensures no == Refuses(name, vals, refused)
    {
      if name == SERIAL || name == ETHADDR {
        return true;
      }
      if name == STDIN || name == STDOUT || name == STDERR {
        if vals == [] || refused {
          return true;
        }
      }
      no := name == BAUDRATE && refused;
    }

    /** The second half of _do_setenv, with no definition of the name left. */
    method Define(name: Str, vals: seq<Str>, ghost refused: bool, ghost es: seq<Str>) returns (rc: int)
      requires Valid() && CallOk(SetCall(name, vals, refused)) && entries == Without(es, Key(name)) && EntriesOk(es)
      requires !(IndexOf(es, Key(name)) < |es| && Refuses(name, vals, refused))
      modifies this`entries, this`crc, data
      ensures Valid() && Outcome(rc, entries) == SetTo(es, data.Length, SetCall(name, vals, refused))
      ensures rc == 0 ==> CrcOk()
      ensures rc != 0 ==> crc == old(crc) && data[..] == old(data[..])
    {
      if vals == [] {
        UpdateCrc();
        return 0;
      }
      var env := FindEnd();
      var overflow := Overflows(env, name, vals);
      if overflow {
        return 1;
      }
      Append(env, name, vals);
      SetMeans(es, data.Length, SetCall(name, vals, refused));
      entries := entries + [NewEntry(name, vals)];
      UpdateCrc();
      rc := 0;
    }

    /** for (nxt = i; env_get_char(nxt) != 0; ++nxt), with a check that it stays inside. */
    method NextNulInside(i: nat, ghost j: nat) returns (nxt: nat)
      requires Valid() && j < |entries| && i == Start(entries, j)
      ensures nxt == i + |entries[j]| && nxt < data.Length
    {
      nxt := i;
      DataAt(j, 0);
      while data[nxt] != 0
        invariant i <= nxt <= i + |entries[j]| && nxt < data.Length
        decreases i + |entries[j]| - nxt
      {
        if nxt >= data.Length + 4 {
          assert false;
        }
        DataAt(j, nxt - i);
        nxt := nxt + 1;
        DataAt(j, nxt - i);
      }
      DataAt(j, nxt - i);
    }

    /** getenv: the index of the value, or -1 for NULL. */
    method GetEnv(name: Str) returns (r: int)
      requires Valid() && NoNul(name)
      ensures r >= 0 <==> Key(name) in ToMap(entries)
      ensures r >= 0 ==> StringAt(data[..], r, ToMap(entries)[Key(name)])
    {
      ghost var j;
      r, j := Search(name);
      Answer(data[..], entries, Key(name), j);
    }

    /** The loop of getenv. */
    method Search(name: Str) returns (r: int, ghost j: nat)
      requires Valid() && NoNul(name)
      ensures NoneBefore(entries, Key(name), j)
      ensures r == if j < |entries| then Start(entries, j) + |Key(name)| + 1 else -1
      ensures j < |entries| ==> Key(entries[j]) == Key(name)
    {
      var i := 0;
      r, j := -1, 0;
      StartOfAll(entries);
      while data[i] != 0
        invariant NoneBefore(entries, Key(name), j) && i == Start(entries, j) < data.Length && r == -1
        decreases |entries| - j
      {
        StartOfAll(entries);
        var nxt := NextNulInside(i, j);
        r := EnvMatch(name, i, j);
        if r >= 0 {
          return;
        }
        FlatAt(entries, j);
        NoneYet(entries, Key(name), j);
        i, j := nxt + 1, j + 1;
        StartOfAll(entries);
      }
      if j < |entries| {
        DataAt(j, 0);
      }
    }

    /** Any run of calls: the entries are those the calls lead to one by one. */
    method SetAll(calls: seq<SetCall>)
      requires Valid() && forall i :: 0 <= i < |calls| ==> CallOk(calls[i])
      modifies this`entries, this`crc, data
      ensures Valid() && entries == Sets(old(entries), data.Length, calls)
      ensures SERIAL in ToMap(old(entries)) && (forall i :: 0 <= i < |calls| ==> EQUALS !in calls[i].name) ==>
                Lookup(entries, SERIAL) == Lookup(old(entries), SERIAL)
      ensures ETHADDR in ToMap(old(entries)) && (forall i :: 0 <= i < |calls| ==> EQUALS !in calls[i].name) ==>
                Lookup(entries, ETHADDR) == Lookup(old(entries), ETHADDR)
    {
      AllCalls(calls);
      for n := 0 to |calls|
        invariant Valid() && entries == Sets(old(entries), data.Length, calls[..n])
      {
        SetsNext(old(entries), data.Length, calls, n);
        var rc := SetEnv(calls[n].name, calls[n].vals, calls[n].refused);
      }
      AllCalls(calls);
      if forall i :: 0 <= i < |calls| ==> EQUALS !in calls[i].name {
        if SERIAL in ToMap(old(entries)) {
          OnceNeverChanges(old(entries), data.Length, calls, SERIAL);
        }
        if ETHADDR in ToMap(old(entries)) {
          OnceNeverChanges(old(entries), data.Length, calls, ETHADDR);
        }
      }
    }
  }

  /** A C string in a buffer. */
  predicate StringAt(d: Str, r: nat, v: Str) {
    r + |v| < |d| && d[r..r + |v|] == v && d[r + |v|] == 0 && NoNul(v)
  }

  /** Where the search for a name ends is where the map has its value, if it has one. */
  lemma {:induction false} Answer(d: Str, es: seq<Str>, k: Str, j: nat)
    requires Layout(d, es) && EntriesOk(es) && NoneBefore(es, k, j) && (j < |es| ==> Key(es[j]) == k)
    ensures j < |es| <==> k in ToMap(es)
    ensures j < |es| ==> StringAt(d, Start(es, j) + |k| + 1, ToMap(es)[k])
  {
    FoundAt(es, k, j);
    MapHas(es, k);
    if j < |es| {
      ValueAt(d, es, j);
    }
  }

  /** The value of entry j in the buffer. */
  lemma {:induction false} ValueAt(d: Str, es: seq<Str>, j: nat)
    requires Layout(d, es) && EntriesOk(es) && j < |es|
    ensures StringAt(d, Start(es, j) + |Key(es[j])| + 1, Value(es[j]))
  {
    var e, m := es[j], Start(es, j);
    ByteAt(d, es, j, |e|);
    var v, r := Value(e), m + |Key(e)| + 1;
    forall i | 0 <= i < |v| ensures d[r + i] == v[i] != 0 {
      ByteAt(d, es, j, |Key(e)| + 1 + i);
    }
    StringIs(d, r, v);
  }

  lemma StringIs(d: Str, r: nat, v: Str)
    requires r + |v| < |d| && d[r + |v|] == 0 && forall i :: 0 <= i < |v| ==> d[r + i] == v[i] != 0
    ensures StringAt(d, r, v)
  {
    assert d[r..r + |v|] == v;
  }

  /** One value more of a new entry. */
  lemma AppendedPart(w: Str, name: Str, vals: seq<Str>, i: nat)
    requires i < |vals|
    ensures w + NewEntry(name, vals[..i + 1]) ==
              w + NewEntry(name, vals[..i]) + [if i == 0 then EQUALS else SPACE] + vals[i]
    ensures |NewEntry(name, vals[..i + 1])| == |NewEntry(name, vals[..i])| + 1 + |vals[i]|
  {
    assert vals[..i + 1] == vals[..i] + [vals[i]];
    TailGrows(vals[..i], vals[i], true);
  }

  /** A part of a new entry is no longer than the whole. */
  lemma {:induction false} PartFits(name: Str, vals: seq<Str>, i: nat)
    requires i < |vals|
    ensures |NewEntry(name, vals[..i])| + 1 + |vals[i]| <= |NewEntry(name, vals)|
    decreases |vals| - i
  {
    AppendedPart([], name, vals, i);
    if i + 1 < |vals| {
      PartFits(name, vals, i + 1);
    } else {
      assert vals[..i + 1] == vals;
    }
  }

  lemma StillThere(a: Str, d: Str, env: nat, nxt: nat)
    requires |a| == |d| && env < nxt && nxt + 1 < |d| && a[env..] == d[env..]
    ensures a[nxt] == d[nxt] && a[nxt + 1] == d[nxt + 1] && a[env + 1..] == d[env + 1..]
  {
    assert a[env..][nxt - env] == d[env..][nxt - env] && a[env..][nxt + 1 - env] == d[env..][nxt + 1 - env];
    assert a[env + 1..] == a[env..][1..] && d[env + 1..] == d[env..][1..];
  }

  lemma OneMoved(a: Str, w: Str, b: bv8, env: nat)
    requires env < |a| && a[..env] == w && a[env] == b
    ensures a[..env + 1] == w + [b]
  {
  }

  /** None of the first j entries is for a name. */
  ghost predicate NoneBefore(es: seq<Str>, k: Str, j: nat) {
    j <= |es| && forall i :: 0 <= i < j ==> Key(es[i]) != k
  }

  lemma NoneYet(es: seq<Str>, k: Str, j: nat)
    requires NoneBefore(es, k, j) && j < |es| && Key(es[j]) != k
    ensures NoneBefore(es, k, j + 1)
  {
  }

  lemma {:induction false} FoundAt(es: seq<Str>, k: Str, j: nat)
    requires NoneBefore(es, k, j) && (j < |es| ==> Key(es[j]) == k)
    ensures j == IndexOf(es, k)
  {
  }

  lemma StillOk(es: seq<Str>, j: nat)
    requires EntriesOk(es) && j < |es|
    ensures EntriesOk(es[..j] + es[j + 1..])
  {
  }

  lemma FirstStart(es: seq<Str>, j: nat)
    requires j < |es|
    ensures Start(es, j) == 0 <==> j == 0
  {
    if j > 0 {
      FlatEnds(es[..j]);
    }
  }

  /** The bytes r at n, whose last is the first of the first double NUL from there. */
  ghost predicate EndsAt(d: Str, n: nat, r: Str) {
    && r != [] && n + |r| < |d| && d[n..n + |r|] == r && r[|r| - 1] == 0 && d[n + |r|] == 0
    && forall t :: 0 <= t < |r| - 1 && r[t] == 0 ==> r[t + 1] != 0
  }

  lemma NextByte(d: Str, n: nat, r: Str, t: nat)
    requires EndsAt(d, n, r) && t < |r|
    ensures d[n + t] == r[t] && (d[n + t] == 0 && d[n + t + 1] == 0 <==> t + 1 == |r|)
  {
    assert d[n..n + |r|][t] == d[n + t];
    assert t + 1 < |r| ==> d[n..n + |r|][t + 1] == d[n + t + 1];
  }

  /** The bytes after an entry that is not the last. */
  lemma RestEnds(d: Str, es: seq<Str>, j: nat)
    requires Layout(d, es) && EntriesOk(es) && j + 1 < |es|
    ensures EndsAt(d, Start(es, j + 1), Flat(es[j + 1..]))
  {
    var r, n := es[j + 1..], Start(es, j + 1);
    FlatAt(es, j);
    FlatEnds(r);
    assert d[..|Flat(es)|][n..n + |Flat(r)|] == Flat(r);
    forall t | 0 <= t < |Flat(r)| - 1 && Flat(r)[t] == 0 ensures Flat(r)[t + 1] != 0 {
      OneDoubleNul(r, t);
    }
  }

  lemma NotTheEnd(d: Str, es: seq<Str>, i: nat)
    requires Layout(d, es) && EntriesOk(es) && i + 1 < |d| && (d[i] != 0 || d[i + 1] != 0)
    requires (es != [] ==> i < |Flat(es)|) && (es == [] ==> i == 0)
    ensures es != [] && i + 1 < |Flat(es)|
  {
    assert forall m :: 0 <= m < |Flat(es)| ==> d[m] == Flat(es)[m];
    if es != [] {
      FlatEnds(es);
    }
  }

  lemma AtTheEnd(d: Str, es: seq<Str>, i: nat)
    requires Layout(d, es) && EntriesOk(es) && i + 1 < |d| && d[i] == 0 && d[i + 1] == 0
    requires (es != [] ==> i < |Flat(es)|) && (es == [] ==> i == 0)
    ensures |Flat(es)| == if i > 0 then i + 1 else 0
  {
    if es != [] {
      FlatEnds(es);
      assert d[..|Flat(es)|][i] == d[i];
      if i + 1 < |Flat(es)| {
        assert d[..|Flat(es)|][i + 1] == d[i + 1];
        OneDoubleNul(es, i);
      }
      FlatAt(es, 0);
      assert es[..0] == [];
    }
  }

  /** An environment of five bytes, a=b, in which `setenv a ccc` does not fit: it fails, a is gone, and the stored
      checksum, right before the call, is wrong. */
  method OverflowLosesCrc() returns (env: Env, rc: int)
    ensures fresh(env) && env.Valid() && rc == 1 && env.entries == [] && !env.CrcOk()
  {
    var table := Crc32.StaticTable();
    var data := new bv8[] [97, 61, 98, 0, 0];
    ghost var es := [Entry([97], [98])];
    SmallEnv(data[..]);
    env := new Env(data, table, es);
    env.UpdateCrc();
    WhenCrcIsKept(data[..], es, [97], [[99, 99, 99]], false);
    rc := env.SetEnv([97], [[99, 99, 99]], false);
  }

  lemma {:induction false} SmallEnv(d: Str)
    requires d == [97, 61, 98, 0, 0]
    ensures var es, c := [Entry([97], [98])], SetCall([97], [[99, 99, 99]], false);
            && Layout(d, es) && EntriesOk(es) && CallOk(c) && SetTo(es, 5, c) == Outcome(1, [])
            && IndexOf(es, Key(c.name)) == 0 && !Refuses(c.name, c.vals, c.refused)
  {
    Single([97], [98]);
    NoEquals([97]);
    FlatOne(Entry([97], [98]));
    FirstTail([[99, 99, 99]]);
  }
}
