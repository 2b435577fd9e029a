/** The buffer both generations of config_file keep: a map from keys to values
    and an ordered list of entries (`data_order`) in which a comment is stored
    as a sentinel prefix followed by its text and a blank line as a sentinel of
    its own. This module holds what the two classes share: the modes, the
    helper values passed to put, what load reads from a list of lines, and the
    lines write_changes emits for an entry list. */
module Layout {
  import opened Line

  /** The two modes a config_file is constructed with. */
  const READ: int := 0
  const WRITE: int := 1

  /** The sentinel strings of one generation: an entry starting with `comment`
      is a comment, an entry starting with `empty` is a blank line. */
  datatype Marks = Marks(comment: string, empty: string)

  /** The `comment` helper class: text written after a `#`. */
  datatype Comment = Comment(text: string)

  /** The `empty_lines` helper class: how many blank lines to write. */
  datatype EmptyLines = EmptyLines(numLines: nat)

  /** How write_changes classifies an entry: comment first, then blank line. */
  predicate IsCommentEntry(m: Marks, e: string) { StartsWith(e, m.comment) }

  predicate IsEmptyEntry(m: Marks, e: string) { StartsWith(e, m.empty) }

  predicate IsKeyEntry(m: Marks, e: string) { !IsCommentEntry(m, e) && !IsEmptyEntry(m, e) }

  /** Both sentinels of each generation start with `#`, so a string that does
      not is classified as a key. */
  lemma UnhashedIsKey(m: Marks, e: string)
    requires StartsWith(m.comment, "#") && StartsWith(m.empty, "#")
    requires !StartsWith(e, "#")
    ensures IsKeyEntry(m, e)
  {
  }

  /** The invariant tying the two containers: every entry that is not a
      sentinel names a key of `data`. */
  ghost predicate Indexed(m: Marks, order: seq<string>, data: map<string, string>)
  {
    forall e :: e in order && IsKeyEntry(m, e) ==> e in data
  }

  /** The converse, kept by scl's buffer: every key of `data` occurs in `order`. */
  ghost predicate Covered(order: seq<string>, data: map<string, string>)
  {
    forall k :: k in data ==> k in order
  }

  /** Appending a key to the order while storing a value under it keeps both
      invariants. */
  lemma AppendKey(m: Marks, order: seq<string>, data: map<string, string>, k: string, v: string)
    requires Indexed(m, order, data)
    ensures Indexed(m, order + [k], data[k := v])
    ensures Covered(order, data) ==> Covered(order + [k], data[k := v])
  {
  }

  /** Appending a sentinel keeps the first invariant. */
  lemma AppendMark(m: Marks, order: seq<string>, data: map<string, string>, e: string)
    requires Indexed(m, order, data) && !IsKeyEntry(m, e)
    ensures Indexed(m, order + [e], data)
    ensures Covered(order, data) ==> Covered(order + [e], data)
  {
  }

  /** The key entries of `order`, in order, with comments and blank lines dropped. */
  function KeyEntries(m: Marks, order: seq<string>): (keys: seq<string>)
    ensures forall e :: e in keys <==> e in order && IsKeyEntry(m, e)
    ensures |keys| <= |order|
  {
    if order == [] then []
    else
      var e := order[|order| - 1];
      KeyEntries(m, order[..|order| - 1]) + (if IsKeyEntry(m, e) then [e] else [])
  }

  // ---------------------------------------------------------------------------
  // Reading: what load takes from the lines of a file.
  // ---------------------------------------------------------------------------

  /** load's filter: a line is read as `key=value` when it is not empty and
      does not start with `#`; every other line is skipped. */
  predicate IsDataLine(line: string) { line != [] && line[0] != '#' }

  /** The keys load appends to data_order, one per data line, in file order. */
  function LoadKeys(lines: seq<string>): (keys: seq<string>)
    ensures |keys| <= |lines|
    ensures forall k :: k in keys ==> '=' !in k && !StartsWith(k, "#")
  {
    if lines == [] then []
    else
      var line := lines[|lines| - 1];
      LoadKeys(lines[..|lines| - 1]) + (if IsDataLine(line) then [Split(line).0] else [])
  }

  /** A key load reads never starts with `#`. */
  lemma KeyUnhashed(line: string)
    requires IsDataLine(line)
    ensures !StartsWith(Split(line).0, "#")
  {
    if Split(line).0 != [] {
      assert Split(line).0[0] == line[0];
    }
  }

  /** `data` after load has assigned `data[key] = value` for every data line
      of `lines`, in order, starting from `d`. */
  function LoadInto(d: map<string, string>, lines: seq<string>): (r: map<string, string>)
  {
    if lines == [] then d
    else
      var line := lines[|lines| - 1];
      var prev := LoadInto(d, lines[..|lines| - 1]);
      if IsDataLine(line) then prev[Split(line).0 := Split(line).1] else prev
  }

  /** load reading one more line. */
  lemma LoadSnoc(d: map<string, string>, lines: seq<string>, line: string)
    ensures LoadKeys(lines + [line]) == LoadKeys(lines) + (if IsDataLine(line) then [Split(line).0] else [])
    ensures LoadInto(d, lines + [line]) ==
              if IsDataLine(line) then LoadInto(d, lines)[Split(line).0 := Split(line).1] else LoadInto(d, lines)
  {
    assert (lines + [line])[..|lines|] == lines;
  }

  datatype Option<T> = None | Some(value: T)

  /** Reference definition: the value on the last data line of `lines` whose
      key is `k`, if there is one. */
  function LastValue(lines: seq<string>, k: string): Option<string>
  {
    if lines == [] then None
    else
      var line := lines[|lines| - 1];
      if IsDataLine(line) && Split(line).0 == k then Some(Split(line).1)
      else LastValue(lines[..|lines| - 1], k)
  }

  /** After load, a key is present exactly when it was present before or some
      data line names it, and its value is the one on the last such line (the
      last duplicate wins); keys no line names keep their old value. */
  lemma {:induction false} LoadIntoLookup(d: map<string, string>, lines: seq<string>, k: string)
    ensures k in LoadInto(d, lines) <==> k in d || LastValue(lines, k).Some?
    ensures LastValue(lines, k).Some? ==> LoadInto(d, lines)[k] == LastValue(lines, k).value
    ensures LastValue(lines, k).None? && k in d ==> LoadInto(d, lines)[k] == d[k]
    decreases |lines|
  {
    if lines != [] {
      LoadIntoLookup(d, lines[..|lines| - 1], k);
    }
  }

  // ---------------------------------------------------------------------------
  // Writing: the lines write_changes emits.
  // ---------------------------------------------------------------------------

  /** The line write_changes emits for one entry: `#` and the comment text for
      a comment entry, an empty line for a blank-line entry, and
      `key=value` with the key's current value otherwise (a missing key reads
      as "", as std::unordered_map::operator[] would insert it). */
  function EntryLine(m: Marks, e: string, data: map<string, string>): string
  {
    if IsCommentEntry(m, e) then "#" + e[|m.comment|..]
    else if IsEmptyEntry(m, e) then ""
    else e + "=" + (if e in data then data[e] else "")
  }

  /** All lines write_changes emits for `order`: one per entry, in order. */
  function Render(m: Marks, order: seq<string>, data: map<string, string>): (lines: seq<string>)
    ensures |lines| == |order|
  {
    if order == [] then []
    else Render(m, order[..|order| - 1], data) + [EntryLine(m, order[|order| - 1], data)]
  }

  /** The line at each position is the one for the entry at that position. */
  lemma {:induction false} RenderAt(m: Marks, order: seq<string>, data: map<string, string>, i: nat)
    requires i < |order|
    ensures Render(m, order, data)[i] == EntryLine(m, order[i], data)
    decreases |order|
  {
    if i < |order| - 1 {
      RenderAt(m, order[..|order| - 1], data, i);
    }
  }

  /** A key put twice is written with its final value at both positions: under
      the invariant, a line `k=v` appears in the output only when `v` is the
      current value of `k`, and it is the line at every position where `k` was
      put. */
  lemma FinalValueOnly(m: Marks, order: seq<string>, data: map<string, string>, k: string, v: string)
    requires Indexed(m, order, data)
    requires forall e :: e in order && IsKeyEntry(m, e) ==> '=' !in e
    requires '=' !in k && !StartsWith(k, "#")
    ensures k + "=" + v in Render(m, order, data) ==> k in data && v == data[k]
    ensures IsKeyEntry(m, k) ==>
              forall i :: 0 <= i < |order| && order[i] == k ==>
                k in data && Render(m, order, data)[i] == k + "=" + data[k]
  {
    var lines := Render(m, order, data);
    if k + "=" + v in lines {
      var i :| 0 <= i < |lines| && lines[i] == k + "=" + v;
      RenderAt(m, order, data, i);
      var e := order[i];
      assert e in order;
      if IsCommentEntry(m, e) {
        HashLine(k, v, e[|m.comment|..]);
      } else if IsKeyEntry(m, e) {
        JoinInjective(k, v, e, data[e]);
      }
    }
    if IsKeyEntry(m, k) {
      forall i | 0 <= i < |order| && order[i] == k
        ensures k in data && lines[i] == k + "=" + data[k]
      {
        assert order[i] in order;
        RenderAt(m, order, data, i);
      }
    }
  }

  /** A comment line is never a `key=value` line whose key does not start with `#`. */
  lemma HashLine(k: string, v: string, text: string)
    requires !StartsWith(k, "#")
    ensures k + "=" + v != "#" + text
  {
    if k == [] {
      assert (k + "=" + v)[0] == '=';
    } else {
      assert (k + "=" + v)[0] == k[0];
    }
  }

  // ---------------------------------------------------------------------------
  // Writing then reading back.
  // ---------------------------------------------------------------------------

  /** The value a value comes back as after a write and a load: an empty value
      is written as `key=` and split back as "=". */
  function Reread(v: string): (r: string)
    ensures r != ""
    ensures v != "" ==> r == v
  {
    if v == "" then "=" else v
  }

  /** `loaded` holds exactly the keys of `keys`, each with its value in `data`
      as it comes back from a file. */
  ghost predicate ReloadedAs(keys: seq<string>, data: map<string, string>, loaded: map<string, string>)
  {
    && (forall k :: k in loaded <==> k in keys)
    && (forall k :: k in loaded ==> k in data && loaded[k] == Reread(data[k]))
  }

  lemma ReloadStep(keys: seq<string>, data: map<string, string>, loaded: map<string, string>, e: string)
    requires ReloadedAs(keys, data, loaded) && e in data
    ensures ReloadedAs(keys + [e], data, loaded[e := Reread(data[e])])
  {
  }

  /** The line written for a key is read back as that key and its value. */
  lemma KeyLine(e: string, v: string)
    requires '=' !in e && !StartsWith(e, "#")
    ensures IsDataLine(e + "=" + v)
    ensures Split(e + "=" + v) == (e, Reread(v))
  {
    SplitJoin(e, v);
    if e == [] {
      assert (e + "=" + v)[0] == '=';
    } else {
      assert (e + "=" + v)[0] == e[0];
    }
  }

  /** The line written for a sentinel is skipped by load. */
  lemma MarkLine(m: Marks, e: string, data: map<string, string>)
    requires !IsKeyEntry(m, e)
    ensures !IsDataLine(EntryLine(m, e, data))
  {
  }

  /** Writing a buffer and loading the written lines gives back its key
      entries in order (comments and blank lines are skipped by load), and
      every key with its current value, except that an empty value comes back
      as "="; nothing else is loaded. Keys must contain no `=` and not start
      with `#`. */
  lemma {:induction false} WriteThenLoad(m: Marks, order: seq<string>, data: map<string, string>)
    requires Indexed(m, order, data)
    requires forall e :: e in order && IsKeyEntry(m, e) ==> '=' !in e && !StartsWith(e, "#")
    ensures LoadKeys(Render(m, order, data)) == KeyEntries(m, order)
    ensures ReloadedAs(KeyEntries(m, order), data, LoadInto(map[], Render(m, order, data)))
    decreases |order|
  {
    if order != [] {
      var init, e := order[..|order| - 1], order[|order| - 1];
      assert order == init + [e];
      assert forall x :: x in init ==> x in order;
      WriteThenLoad(m, init, data);
      var prev := Render(m, init, data);
      var line := EntryLine(m, e, data);
      assert Render(m, order, data) == prev + [line];
      LoadSnoc(map[], prev, line);
      assert KeyEntries(m, order) == KeyEntries(m, init) + (if IsKeyEntry(m, e) then [e] else []);
      if IsKeyEntry(m, e) {
        assert e in order;
        KeyLine(e, data[e]);
        ReloadStep(KeyEntries(m, init), data, LoadInto(map[], prev), e);
      } else {
        MarkLine(m, e, data);
      }
    }
  }

  /** The line written for an entry holds no newline when neither the entry
      nor its value does. */
  lemma EntryLineSingle(m: Marks, e: string, data: map<string, string>)
    requires '\n' !in e
    requires e in data ==> '\n' !in data[e]
    ensures '\n' !in EntryLine(m, e, data)
  {
    if IsCommentEntry(m, e) {
      var text := e[|m.comment|..];
      assert forall j :: 0 <= j < |text| ==> text[j] == e[|m.comment| + j];
    }
  }

  /** write_changes ends every line with '\n'. When no entry (comment text
      included) and no value holds a newline, the lines std::getline reads
      back from that text are exactly the lines written; otherwise a line
      would come back cut in two. */
  lemma WrittenTextSplitsBack(m: Marks, order: seq<string>, data: map<string, string>)
    requires forall e :: e in order ==> '\n' !in e
    requires forall k :: k in data ==> '\n' !in data[k]
    ensures Tokens(Terminated(Render(m, order, data), '\n'), '\n') == Render(m, order, data)
  {
    var lines := Render(m, order, data);
    forall i | 0 <= i < |lines|
      ensures '\n' !in lines[i]
    {
      RenderAt(m, order, data, i);
      assert order[i] in order;
      EntryLineSingle(m, order[i], data);
    }
    TokensOfTerminated(lines, '\n');
  }
}
