/** scl::config_file (include/SCL/SCL.hpp): the newer generation. Loading a
    file records each key in data_order as well as in data, and an iterator
    walks data_order, turning sentinel entries back into marker pairs. */
module Scl {
  import opened Line
  import opened Layout

  /** The sentinel stored in data_order for a comment (followed by its text)
      and for one blank line. */
  const COMMENT_LINE: string := "#{_COMMENT_LINE}"
  const EMPTY_LINE: string := "#{_EMPTY_LINE}"
  const MARKS: Marks := Marks(COMMENT_LINE, EMPTY_LINE)

  /** The entry a copy loop appends for an iterated pair when it sends a
      comment marker to put(comment(text)), a blank-line marker to
      put(empty_lines(1)) and any other pair to put(key, value). (The plain
      put(pair) would instead append COMMENT_LINE alone for a comment.) */
  function EntryOfPair(p: (string, string)): string
  {
    if p.0 == COMMENT_LINE then COMMENT_LINE + p.1 else p.0
  }

  /** Every entry the iterator reads as a key (anything but the blank-line
      sentinel and a comment) is a key of `data`. */
  ghost predicate Keyed(order: seq<string>, data: map<string, string>)
  {
    forall e :: e in order && e != EMPTY_LINE && !StartsWith(e, COMMENT_LINE) ==> e in data
  }

  /** Appending a key while storing a value under it keeps Keyed. */
  lemma KeyedAppend(order: seq<string>, data: map<string, string>, k: string, v: string)
    requires Keyed(order, data)
    ensures Keyed(order + [k], data[k := v])
  {
  }

  class ConfigFile {
    /** the buffer: values by key, and the order of keys, comments and blank lines */
    var data: map<string, string>
    var dataOrder: seq<string>
    /** READ, WRITE, or any other int the constructor was given */
    var mode: int
    /** whether the underlying file stream is open */
    var isOpen: bool

    /** Every non-sentinel entry is a key of `data`, and every key of `data`
        occurs in data_order (load and put add to both, close clears both).
        The iterator reads every entry other than the blank-line sentinel and
        a comment as a key, so those entries are keys of `data` as well.
        Outside WRITE mode only load adds entries, and the keys it reads never
        start with `#`, so such a buffer holds no sentinel. */
    ghost predicate Valid()
      reads this
    {
      && Indexed(MARKS, dataOrder, data)
      && Keyed(dataOrder, data)
      && Covered(dataOrder, data)
      && (mode != WRITE ==> forall e :: e in dataOrder ==> !StartsWith(e, "#"))
    }

    /** The file handle is left out: `isOpen` says whether opening succeeded. */
    constructor (mode: int, isOpen: bool)
      ensures Valid()
      ensures this.mode == mode && this.isOpen == isOpen
      ensures data == map[] && dataOrder == []
    {
      this.mode := mode;
      this.isOpen := isOpen;
      data := map[];
      dataOrder := [];
    }

    /** load: only in READ mode on an open file; each non-empty line that does
        not start with `#` is split at its first `=`, its key appended to
        data_order and its value stored (a later duplicate overwrites the
        value, and both occurrences stay in data_order). `lines` are the lines
        std::getline yields from the stream. */
    method Load(lines: seq<string>) returns (ok: bool)
      requires Valid()
      modifies this`data, this`dataOrder
      ensures Valid()
      ensures ok == (mode == READ && isOpen)
      ensures ok ==> data == LoadInto(old(data), lines)
      ensures ok ==> dataOrder == old(dataOrder) + LoadKeys(lines)
      ensures !ok ==> data == old(data) && dataOrder == old(dataOrder)
    {
      if mode != READ || !isOpen {
        return false;
      }
      var i := 0;
      while i < |lines|
        invariant 0 <= i <= |lines|
        invariant data == LoadInto(old(data), lines[..i])
        invariant dataOrder == old(dataOrder) + LoadKeys(lines[..i])
        invariant Valid()
      {
        var line := lines[i];
        assert lines[..i + 1] == lines[..i] + [line];
        LoadSnoc(old(data), lines[..i], line);
        if line != [] && line[0] != '#' {
          var s := Split(line);
          AppendKey(MARKS, dataOrder, data, s.0, s.1);
          KeyedAppend(dataOrder, data, s.0, s.1);
          KeyUnhashed(line);
          dataOrder := dataOrder + [s.0];
          data := data[s.0 := s.1];
        }
        i := i + 1;
      }
      assert lines[..i] == lines;
      return true;
    }

    /** write_changes: nothing is written unless in WRITE mode with a non-empty
        buffer (comments and blank lines alone are not written); otherwise one
        line per data_order entry, in order. The buffer is left as it is. */
    method WriteChanges() returns (ok: bool, out: seq<string>)
      requires Valid()
      ensures ok == (mode == WRITE && data != map[])
      ensures out == if ok then Render(MARKS, dataOrder, data) else []
    {
      if mode != WRITE || data == map[] {
        return false, [];
      }
      out := [];
      for i := 0 to |dataOrder|
        invariant out == Render(MARKS, dataOrder[..i], data)
      {
        var name := dataOrder[i];
        if StartsWith(name, COMMENT_LINE) {
          out := out + ["#" + name[|COMMENT_LINE|..]];
        } else if StartsWith(name, EMPTY_LINE) {
          out := out + [""];
        } else {
          assert name in dataOrder;
          out := out + [name + "=" + data[name]];
        }
        assert dataOrder[..i + 1][..i] == dataOrder[..i];
      }
      assert dataOrder[..|dataOrder|] == dataOrder;
      ok := true;
    }

    /** close: the stream is closed and both containers are emptied; the mode
        is kept. Closing twice leaves the same state as closing once. */
    method Close()
      modifies this`data, this`dataOrder, this`isOpen
      ensures Valid()
      ensures data == map[] && dataOrder == [] && !isOpen
    {
      isOpen := false;
      data := map[];
      dataOrder := [];
    }

    /** get_string: the stored value, verbatim, when in READ mode with a
        non-empty buffer holding `name`; `def` otherwise. */
    function GetString(name: string, def: string): (r: string)
      reads this
      ensures mode == READ && data != map[] && name in data ==> r == data[name]
      ensures !(mode == READ && data != map[] && name in data) ==> r == def
    {
      if mode != READ || data == map[] then def
      else if name in data then data[name]
      else def
    }

    /** get_strings: under the same conditions as get_string, the stored value
        cut at every space as std::getline does (Tokens); `def` otherwise. */
    method GetStrings(name: string, def: seq<string>) returns (r: seq<string>)
      ensures mode == READ && data != map[] && name in data ==> r == Tokens(data[name], ' ')
      ensures !(mode == READ && data != map[] && name in data) ==> r == def
    {
      if mode != READ || data == map[] || name !in data {
        return def;
      }
      var s := data[name];
      r := [];
      var pos := 0;
      while pos < |s|
        invariant 0 <= pos <= |s|
        invariant r + Tokens(s[pos..], ' ') == Tokens(s, ' ')
        decreases |s| - pos
      {
        var token, next := GetLine(s, pos, ' ');
        assert r + [token] + Tokens(s[next..], ' ') == r + ([token] + Tokens(s[next..], ' '));
        r, pos := r + [token], next;
      }
      assert s[pos..] == [];
    }

    /** put(name, val) with `val` already formatted: only in WRITE mode; the
        value is stored (overwriting) and exactly `name` is appended. */
    method Put(name: string, val: string) returns (ok: bool)
      requires Valid()
      modifies this`data, this`dataOrder
      ensures Valid()
      ensures ok == (mode == WRITE)
      ensures ok ==> data == old(data)[name := val] && dataOrder == old(dataOrder) + [name]
      ensures !ok ==> data == old(data) && dataOrder == old(dataOrder)
    {
      if mode != WRITE {
        return false;
      }
      data := data[name := val];
      dataOrder := dataOrder + [name];
      return true;
    }

    /** put(std::pair): the same as put(pair.first, pair.second). */
    method PutPair(val: (string, string)) returns (ok: bool)
      requires Valid()
      modifies this`data, this`dataOrder
      ensures Valid()
      ensures ok == (mode == WRITE)
      ensures ok ==> data == old(data)[val.0 := val.1] && dataOrder == old(dataOrder) + [val.0]
      ensures !ok ==> data == old(data) && dataOrder == old(dataOrder)
    {
      if mode != WRITE {
        return false;
      }
      data := data[val.0 := val.1];
      dataOrder := dataOrder + [val.0];
      return true;
    }

    /** put(name, vector): the elements are stored as one value, each followed
        by a space (Terminated), so that get_strings reads them back. */
    method PutList(name: string, val: seq<string>) returns (ok: bool)
      requires Valid()
      modifies this`data, this`dataOrder
      ensures Valid()
      ensures ok == (mode == WRITE)
      ensures ok ==> data == old(data)[name := Terminated(val, ' ')] && dataOrder == old(dataOrder) + [name]
      ensures !ok ==> data == old(data) && dataOrder == old(dataOrder)
    {
      if mode != WRITE {
        return false;
      }
      var text := "";
      for i := 0 to |val|
        invariant text == Terminated(val[..i], ' ')
      {
        assert val[..i + 1][..i] == val[..i];
        text := text + val[i] + " ";
      }
      assert val[..|val|] == val;
      data := data[name := text];
      dataOrder := dataOrder + [name];
      return true;
    }

    /** put(std::pair<name, vector>): the same as put(name, vector). */
    method PutListPair(val: (string, seq<string>)) returns (ok: bool)
      requires Valid()
      modifies this`data, this`dataOrder
      ensures Valid()
      ensures ok == (mode == WRITE)
      ensures ok ==> data == old(data)[val.0 := Terminated(val.1, ' ')] && dataOrder == old(dataOrder) + [val.0]
      ensures !ok ==> data == old(data) && dataOrder == old(dataOrder)
    {
      ok := PutList(val.0, val.1);
    }

    /** put(comment): only in WRITE mode; appends the comment sentinel followed
        by the text, and leaves `data` alone. */
    method PutComment(c: Comment) returns (ok: bool)
      requires Valid()
      modifies this`dataOrder
      ensures Valid()
      ensures ok == (mode == WRITE)
      ensures ok ==> dataOrder == old(dataOrder) + [COMMENT_LINE + c.text]
      ensures !ok ==> dataOrder == old(dataOrder)
    {
      if mode != WRITE {
        return false;
      }
      StartsWithConcat(COMMENT_LINE, c.text);
      dataOrder := dataOrder + [COMMENT_LINE + c.text];
      return true;
    }

    /** put(empty_lines): only in WRITE mode; appends `numLines` blank-line
        sentinels, and leaves `data` alone. */
    method PutEmptyLines(lines: EmptyLines) returns (ok: bool)
      requires Valid()
      modifies this`dataOrder
      ensures Valid()
      ensures ok == (mode == WRITE)
      ensures ok ==> dataOrder == old(dataOrder) + seq(lines.numLines, _ => EMPTY_LINE)
      ensures !ok ==> dataOrder == old(dataOrder)
    {
      if mode != WRITE {
        return false;
      }
      StartsWithConcat(EMPTY_LINE, "");
      assert EMPTY_LINE + "" == EMPTY_LINE;
      for i := 0 to lines.numLines
        invariant dataOrder == old(dataOrder) + seq(i, _ => EMPTY_LINE)
        invariant Valid()
      {
        assert seq(i + 1, _ => EMPTY_LINE) == seq(i, _ => EMPTY_LINE) + [EMPTY_LINE];
        dataOrder := dataOrder + [EMPTY_LINE];
      }
      return true;
    }

    /** begin()/end(): iteration runs over the positions of data_order. */
    function Begin(): (it: nat)
    {
      0
    }

    function End(): (it: nat)
      reads this
    {
      |dataOrder|
    }

    /** iterator::operator*: a blank-line entry yields (EMPTY_LINE, ""), a
        comment entry yields (COMMENT_LINE, its text), and a key yields the key
        with its current value. EntryOfPair maps the pair back to the entry. */
    function Deref(it: nat): (p: (string, string))
      reads this
      requires Valid()
      requires Begin() <= it < End()
      ensures EntryOfPair(p) == dataOrder[it]
      ensures p.0 == EMPTY_LINE <==> dataOrder[it] == EMPTY_LINE
      ensures dataOrder[it] == EMPTY_LINE ==> p == (EMPTY_LINE, "")
      ensures dataOrder[it] != EMPTY_LINE && StartsWith(dataOrder[it], COMMENT_LINE) ==>
                p == (COMMENT_LINE, dataOrder[it][|COMMENT_LINE|..])
      ensures dataOrder[it] != EMPTY_LINE && !StartsWith(dataOrder[it], COMMENT_LINE) ==>
                dataOrder[it] in data && p == (dataOrder[it], data[dataOrder[it]])
    {
      var e := dataOrder[it];
      assert e in dataOrder;
      if e == EMPTY_LINE then (EMPTY_LINE, "")
      else if StartsWith(e, COMMENT_LINE) then (COMMENT_LINE, e[|COMMENT_LINE|..])
      else (e, data[e])
    }

    /** The pairs `for (auto it = begin(); it != end(); ++it)` dereferences,
        from position `it` on. */
    function Walk(it: nat): (ps: seq<(string, string)>)
      reads this
      requires Valid()
      requires Begin() <= it <= End()
      ensures |ps| == End() - it
      decreases End() - it
    {
      if it == End() then [] else [Deref(it)] + Walk(it + 1)
    }
  }

  /** The line write_changes emits for an entry is the one its dereferenced
      pair stands for, except for a key that merely starts with EMPTY_LINE. */
  lemma DerefWritesAsEntry(f: ConfigFile, it: nat)
    requires f.Valid()
    requires it < |f.dataOrder|
    requires StartsWith(f.dataOrder[it], EMPTY_LINE) ==> f.dataOrder[it] == EMPTY_LINE
    ensures EntryLine(MARKS, f.dataOrder[it], f.data) ==
              var p := f.Deref(it);
              if p.0 == COMMENT_LINE then "#" + p.1
              else if p.0 == EMPTY_LINE then ""
              else p.0 + "=" + p.1
  {
  }

  /** The entries putting a sequence of pairs appends: put(comment(text)),
      put(empty_lines(1)) or put(key, value) for each pair in turn. */
  function EntriesOf(ps: seq<(string, string)>): (es: seq<string>)
    ensures |es| == |ps|
  {
    if ps == [] then [] else [EntryOfPair(ps[0])] + EntriesOf(ps[1..])
  }

  /** Copying a buffer by iterating over it and handing every pair to the
      matching put (put(comment) for a comment marker, put(empty_lines(1)) for
      a blank-line marker, put(key, value) otherwise, as EntryOfPair does)
      rebuilds its data_order: comments, blank lines and keys come out in the
      same order. */
  lemma {:induction false} WalkRebuildsOrder(f: ConfigFile, it: nat)
    requires f.Valid()
    requires it <= |f.dataOrder|
    ensures EntriesOf(f.Walk(it)) == f.dataOrder[it..]
    decreases |f.dataOrder| - it
  {
    if it < |f.dataOrder| {
      WalkRebuildsOrder(f, it + 1);
      var ps := f.Walk(it);
      assert ps[1..] == f.Walk(it + 1);
      assert f.dataOrder[it..] == [f.dataOrder[it]] + f.dataOrder[it + 1..];
    }
  }

  /** Round trip through a file: a WRITE buffer whose keys contain no `=` and
      do not start with `#`, and whose entries and values hold no newline, is
      written as `text`; the lines std::getline reads back from it, loaded
      into an empty buffer, append its key entries in the same order
      (comments and blank lines are skipped) and store exactly its keys, each
      with its current value ("" comes back as "="). */
  lemma WriteThenLoadFile(w: ConfigFile, text: string, lines: seq<string>)
    requires w.Valid()
    requires forall k :: k in w.data ==> '=' !in k && !StartsWith(k, "#")
    requires forall e :: e in w.dataOrder ==> '\n' !in e
    requires forall k :: k in w.data ==> '\n' !in w.data[k]
    requires w.data != map[] && w.mode == WRITE
    requires text == Terminated(Render(MARKS, w.dataOrder, w.data), '\n')
    requires lines == Tokens(text, '\n')
    ensures LoadKeys(lines) == KeyEntries(MARKS, w.dataOrder)
    ensures forall k :: k in LoadInto(map[], lines) <==> k in w.data
    ensures forall k :: k in LoadInto(map[], lines) ==> LoadInto(map[], lines)[k] == Reread(w.data[k])
  {
    WrittenTextSplitsBack(MARKS, w.dataOrder, w.data);
    WriteThenLoad(MARKS, w.dataOrder, w.data);
    forall k | k in w.data
      ensures k in KeyEntries(MARKS, w.dataOrder)
    {
      assert k in w.dataOrder;
      UnhashedIsKey(MARKS, k);
    }
  }

  /** A loaded file is iterated without comments or blank lines (load skips
      them): in a buffer outside WRITE mode every position dereferences to a
      key and its current value. */
  lemma ReadIterationYieldsKeys(f: ConfigFile, it: nat)
    requires f.Valid() && f.mode != WRITE
    requires it < |f.dataOrder|
    ensures f.dataOrder[it] in f.data
    ensures f.Deref(it) == (f.dataOrder[it], f.data[f.dataOrder[it]])
  {
    var e := f.dataOrder[it];
    assert e in f.dataOrder;
    UnhashedIsKey(MARKS, e);
  }

  /** get_string after load: in a READ buffer that loaded `lines` into an
      empty buffer, a key is found exactly when some data line names it, and
      its value is the one on the last such line. */
  lemma GetAfterLoad(f: ConfigFile, lines: seq<string>, name: string, def: string)
    requires f.mode == READ && f.data == LoadInto(map[], lines)
    ensures LastValue(lines, name).Some? ==> f.GetString(name, def) == LastValue(lines, name).value
    ensures LastValue(lines, name).None? ==> f.GetString(name, def) == def
  {
    LoadIntoLookup(map[], lines, name);
  }
}
