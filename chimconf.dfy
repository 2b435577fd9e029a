/** chim::config_file (include/chimconf/chimconf.hpp): the older generation.
    Loading fills only `data` (data_order is used for writing alone), and
    besides the put overloads there are put_string, put_comment and
    put_empty_lines. */
module Chim {
  import opened Line
  import opened Layout

  /** The sentinel stored in data_order for a comment (followed by its text)
      and for one blank line. */
  const COMMENT_LINE: string := "#{CHIMCONF_COMMENT_LINE}"
  const EMPTY_LINE: string := "#{CHIMCONF_EMPTY_LINE}"
  const MARKS: Marks := Marks(COMMENT_LINE, EMPTY_LINE)

  /** put_empty_lines(int num): the loop `for (i = 0; i < num; i++)` runs
      max(num, 0) times. */
  function LoopCount(num: int): nat
  {
    if num < 0 then 0 else num
  }

  class ConfigFile {
    /** the buffer: values by key, and the order of keys, comments and blank lines */
    var data: map<string, string>
    var dataOrder: seq<string>
    /** READ, WRITE, or any other int the constructor was given */
    var mode: int
    /** whether the underlying file stream is open */
    var isOpen: bool

    /** Every non-sentinel entry is a key of `data`. Only put touches
        data_order and put works only in WRITE mode, so a READ buffer has no
        entries; outside READ mode, where load does nothing, every key of
        `data` occurs in data_order. */
    ghost predicate Valid()
      reads this
    {
      && Indexed(MARKS, dataOrder, data)
      && (mode == READ ==> dataOrder == [])
      && (mode != READ ==> Covered(dataOrder, data))
    }

    /** The file handle is left out: `isOpen` says whether opening succeeded. */
    constructor (mode: int, isOpen: bool)
      ensures Valid()
      ensures this.mode == mode && this.isOpen == isOpen
      ensures data == map[] && dataOrder == []
    {
      this.mode := mode;
      this.isOpen := isOpen;
      data := map[];
      dataOrder := [];
    }

    /** load: only in READ mode on an open file; each non-empty line that does
        not start with `#` is split at its first `=` and its value stored
        under its key (a later duplicate overwrites). data_order is never
        touched. `lines` are the lines std::getline yields from the stream. */
    method Load(lines: seq<string>) returns (ok: bool)
      requires Valid()
      modifies this`data
      ensures Valid()
      ensures ok == (mode == READ && isOpen)
      ensures ok ==> data == LoadInto(old(data), lines)
      ensures !ok ==> data == old(data)
    {
      if mode != READ || !isOpen {
        return false;
      }
      var i := 0;
      while i < |lines|
        invariant 0 <= i <= |lines|
        invariant data == LoadInto(old(data), lines[..i])
      {
        var line := lines[i];
        assert lines[..i + 1] == lines[..i] + [line];
        LoadSnoc(old(data), lines[..i], line);
        if line != [] && line[0] != '#' {
          var s := Split(line);
          data := data[s.0 := s.1];
        }
        i := i + 1;
      }
      assert lines[..i] == lines;
      return true;
    }

    /** write_changes: nothing is written unless in WRITE mode with a non-empty
        buffer; otherwise one line per data_order entry, in order, each key
        with its current value. The buffer is left as it is. */
    method WriteChanges() returns (ok: bool, out: seq<string>)
      requires Valid()
      ensures ok == (mode == WRITE && data != map[])
      ensures out == if ok then Render(MARKS, dataOrder, data) else []
    {
      if mode != WRITE || data == map[] {
        return false, [];
      }
      out := [];
      for i := 0 to |dataOrder|
        invariant out == Render(MARKS, dataOrder[..i], data)
      {
        var name := dataOrder[i];
        if StartsWith(name, COMMENT_LINE) {
          out := out + ["#" + name[|COMMENT_LINE|..]];
        } else if StartsWith(name, EMPTY_LINE) {
          out := out + [""];
        } else {
          assert name in dataOrder;
          out := out + [name + "=" + data[name]];
        }
        assert dataOrder[..i + 1][..i] == dataOrder[..i];
      }
      assert dataOrder[..|dataOrder|] == dataOrder;
      ok := true;
    }

    /** close: the stream is closed and both containers are emptied; the mode
        is kept. Closing twice leaves the same state as closing once. */
    method Close()
      modifies this`data, this`dataOrder, this`isOpen
      ensures Valid()
      ensures data == map[] && dataOrder == [] && !isOpen
    {
      isOpen := false;
      data := map[];
      dataOrder := [];
    }

    /** get_string: the stored value, verbatim, when in READ mode with a
        non-empty buffer holding `name`; `def` otherwise. */
    function GetString(name: string, def: string): (r: string)
      reads this
      ensures mode == READ && data != map[] && name in data ==> r == data[name]
      ensures !(mode == READ && data != map[] && name in data) ==> r == def
    {
      if mode != READ || data == map[] then def
      else if name in data then data[name]
      else def
    }

    /** get_strings: under the same conditions as get_string, the stored value
        cut at every space as std::getline does (Tokens); `def` otherwise. */
    method GetStrings(name: string, def: seq<string>) returns (r: seq<string>)
      ensures mode == READ && data != map[] && name in data ==> r == Tokens(data[name], ' ')
      ensures !(mode == READ && data != map[] && name in data) ==> r == def
    {
      if mode != READ || data == map[] || name !in data {
        return def;
      }
      var s := data[name];
      r := [];
      var pos := 0;
      while pos < |s|
        invariant 0 <= pos <= |s|
        invariant r + Tokens(s[pos..], ' ') == Tokens(s, ' ')
        decreases |s| - pos
      {
        var token, next := GetLine(s, pos, ' ');
        assert r + [token] + Tokens(s[next..], ' ') == r + ([token] + Tokens(s[next..], ' '));
        r, pos := r + [token], next;
      }
      assert s[pos..] == [];
    }

    /** put(name, val) with `val` already formatted: only in WRITE mode; the
        value is stored (overwriting) and exactly `name` is appended. */
    method Put(name: string, val: string) returns (ok: bool)
      requires Valid()
      modifies this`data, this`dataOrder
      ensures Valid()
      ensures ok == (mode == WRITE)
      ensures ok ==> data == old(data)[name := val] && dataOrder == old(dataOrder) + [name]
      ensures !ok ==> data == old(data) && dataOrder == old(dataOrder)
    {
      if mode != WRITE {
        return false;
      }
      data := data[name := val];
      dataOrder := dataOrder + [name];
      return true;
    }

    /** put(std::pair): the same as put(pair.first, pair.second). */
    method PutPair(val: (string, string)) returns (ok: bool)
      requires Valid()
      modifies this`data, this`dataOrder
      ensures Valid()
      ensures ok == (mode == WRITE)
      ensures ok ==> data == old(data)[val.0 := val.1] && dataOrder == old(dataOrder) + [val.0]
      ensures !ok ==> data == old(data) && dataOrder == old(dataOrder)
    {
      if mode != WRITE {
        return false;
      }
      data := data[val.0 := val.1];
      dataOrder := dataOrder + [val.0];
      return true;
    }

    /** put(name, vector): the elements are stored as one value, each followed
        by a space (Terminated), so that get_strings reads them back. */
    method PutList(name: string, val: seq<string>) returns (ok: bool)
      requires Valid()
      modifies this`data, this`dataOrder
      ensures Valid()
      ensures ok == (mode == WRITE)
      ensures ok ==> data == old(data)[name := Terminated(val, ' ')] && dataOrder == old(dataOrder) + [name]
      ensures !ok ==> data == old(data) && dataOrder == old(dataOrder)
    {
      if mode != WRITE {
        return false;
      }
      var text := "";
      for i := 0 to |val|
        invariant text == Terminated(val[..i], ' ')
      {
        assert val[..i + 1][..i] == val[..i];
        text := text + val[i] + " ";
      }
      assert val[..|val|] == val;
      data := data[name := text];
      dataOrder := dataOrder + [name];
      return true;
    }

    /** put(std::pair<name, vector>): the same as put(name, vector). */
    method PutListPair(val: (string, seq<string>)) returns (ok: bool)
      requires Valid()
      modifies this`data, this`dataOrder
      ensures Valid()
      ensures ok == (mode == WRITE)
      ensures ok ==> data == old(data)[val.0 := Terminated(val.1, ' ')] && dataOrder == old(dataOrder) + [val.0]
      ensures !ok ==> data == old(data) && dataOrder == old(dataOrder)
    {
      ok := PutList(val.0, val.1);
    }

    /** put_string (deprecated): the same as put(name, val). */
    method PutString(name: string, val: string) returns (ok: bool)
      requires Valid()
      modifies this`data, this`dataOrder
      ensures Valid()
      ensures ok == (mode == WRITE)
      ensures ok ==> data == old(data)[name := val] && dataOrder == old(dataOrder) + [name]
      ensures !ok ==> data == old(data) && dataOrder == old(dataOrder)
    {
      ok := Put(name, val);
    }

    /** put(comment): only in WRITE mode; appends the comment sentinel followed
        by the text, and leaves `data` alone. */
    method PutComment(c: Comment) returns (ok: bool)
      requires Valid()
      modifies this`dataOrder
      ensures Valid()
      ensures ok == (mode == WRITE)
      ensures ok ==> dataOrder == old(dataOrder) + [COMMENT_LINE + c.text]
      ensures !ok ==> dataOrder == old(dataOrder)
    {
      ok := PutCommentText(c.text);
    }

    /** put_comment(text): only in WRITE mode; appends the comment sentinel
        followed by the text, and leaves `data` alone. */
    method PutCommentText(comment: string) returns (ok: bool)
      requires Valid()
      modifies this`dataOrder
      ensures Valid()
      ensures ok == (mode == WRITE)
      ensures ok ==> dataOrder == old(dataOrder) + [COMMENT_LINE + comment]
      ensures !ok ==> dataOrder == old(dataOrder)
    {
      if mode != WRITE {
        return false;
      }
      StartsWithConcat(COMMENT_LINE, comment);
      dataOrder := dataOrder + [COMMENT_LINE + comment];
      return true;
    }

    /** put(empty_lines): only in WRITE mode; appends `numLines` blank-line
        sentinels, and leaves `data` alone. */
    method PutEmptyLines(lines: EmptyLines) returns (ok: bool)
      requires Valid()
      modifies this`dataOrder
      ensures Valid()
      ensures ok == (mode == WRITE)
      ensures ok ==> dataOrder == old(dataOrder) + seq(lines.numLines, _ => EMPTY_LINE)
      ensures !ok ==> dataOrder == old(dataOrder)
    {
      ok := PutEmptyLineCount(lines.numLines);
    }

    /** put_empty_lines(num): only in WRITE mode; appends max(num, 0)
        blank-line sentinels, and leaves `data` alone. */
    method PutEmptyLineCount(num: int) returns (ok: bool)
      requires Valid()
      modifies this`dataOrder
      ensures Valid()
      ensures ok == (mode == WRITE)
      ensures ok ==> dataOrder == old(dataOrder) + seq(LoopCount(num), _ => EMPTY_LINE)
      ensures !ok ==> dataOrder == old(dataOrder)
    {
      if mode != WRITE {
        return false;
      }
      StartsWithConcat(EMPTY_LINE, "");
      assert EMPTY_LINE + "" == EMPTY_LINE;
      var i := 0;
      while i < num
        invariant 0 <= i <= LoopCount(num)
        invariant dataOrder == old(dataOrder) + seq(i, _ => EMPTY_LINE)
        invariant Valid()
      {
        assert seq(i + 1, _ => EMPTY_LINE) == seq(i, _ => EMPTY_LINE) + [EMPTY_LINE];
        dataOrder := dataOrder + [EMPTY_LINE];
        i := i + 1;
      }
      return true;
    }
  }

  /** Round trip through a file: a WRITE buffer whose keys contain no `=` and
      do not start with `#`, and whose entries and values hold no newline, is
      written as `text`; a fresh READ buffer loading the lines std::getline
      reads back from it holds exactly the keys that were put, each with its
      current value ("" comes back as "="); its data_order stays empty. */
  lemma WriteThenLoadFile(w: ConfigFile, text: string, lines: seq<string>)
    requires w.Valid()
    requires forall k :: k in w.data ==> '=' !in k && !StartsWith(k, "#")
    requires forall e :: e in w.dataOrder ==> '\n' !in e
    requires forall k :: k in w.data ==> '\n' !in w.data[k]
    requires w.data != map[] && w.mode == WRITE
    requires text == Terminated(Render(MARKS, w.dataOrder, w.data), '\n')
    requires lines == Tokens(text, '\n')
    ensures forall k :: k in LoadInto(map[], lines) <==> k in w.data
    ensures forall k :: k in LoadInto(map[], lines) ==> LoadInto(map[], lines)[k] == Reread(w.data[k])
  {
    WrittenTextSplitsBack(MARKS, w.dataOrder, w.data);
    WriteThenLoad(MARKS, w.dataOrder, w.data);
    forall k | k in w.data
      ensures k in KeyEntries(MARKS, w.dataOrder)
    {
      assert k in w.dataOrder;
      UnhashedIsKey(MARKS, k);
    }
  }

  /** get_string after load: in a READ buffer that loaded `lines` into an
      empty buffer, a key is found exactly when some data line names it, and
      its value is the one on the last such line. */
  lemma GetAfterLoad(f: ConfigFile, lines: seq<string>, name: string, def: string)
    requires f.mode == READ && f.data == LoadInto(map[], lines)
    ensures LastValue(lines, name).Some? ==> f.GetString(name, def) == LastValue(lines, name).value
    ensures LastValue(lines, name).None? ==> f.GetString(name, def) == def
  {
    LoadIntoLookup(map[], lines, name);
  }
}
