/** One line of a settings file: comments, section headers and the
    "prefix key = value" assignments that the editor and the readers split. */
module IniLine {
  import opened Wrappers
  import opened Text

  datatype Assignment = Assignment(prefix: string, key: string, value: string)

  predicate IsPrefixChar(c: char) { c == '+' || c == '-' || c == '.' || c == '!' }

  /** No prefix, or one of '+', '-', '.' and '!'. */
  predicate IsPrefix(prefix: string) {
    prefix == [] || (|prefix| == 1 && IsPrefixChar(prefix[0]))
  }

  predicate IsCommentChar(c: char) { c == ';' || c == '#' }

  /** split_ini_assignment. */
  function SplitAssignment(line: string): (r: Option<Assignment>) {
    var stripped := Trim(line);
    if stripped == [] || IsCommentChar(stripped[0]) then None
    else
      match Cut(stripped, '=')
      case None => None
      case Some((left0, right)) =>
        var left := Trim(left0);
        if left != [] && IsPrefixChar(left[0]) then
          Some(Assignment([left[0]], Trim(left[1..]), Trim(right)))
        else
          Some(Assignment([], left, Trim(right)))
  }

  /** A line that the parsers read as a section header. */
  predicate HeaderLike(line: string) {
    var stripped := Trim(line);
    stripped != [] && stripped[0] == '[' && stripped[|stripped| - 1] == ']'
  }

  function HeaderName(line: string): string
    requires HeaderLike(line)
  {
    var stripped := Trim(line);
    stripped[1..|stripped| - 1]
  }

  /** What read_ini_value takes from a line for a key. */
  function IniValue(line: string, key: string): (r: Option<string>) {
    var stripped := Trim(line);
    if stripped == [] || IsCommentChar(stripped[0]) || HeaderLike(line) then None
    else
      match Cut(stripped, '=')
      case None => None
      case Some((left, right)) =>
        if Trim(left) == key then Some(Strip(Quote, Trim(right))) else None
  }

  /** The text of a line that a settings edit writes. */
  function Entry(prefix: string, key: string, value: string): string {
    prefix + key + "=" + value
  }

  /** A schema key: trimmed, non-empty, without '=', and not opening like a
      prefix, a comment or a header. */
  predicate CleanKey(key: string) {
    key != [] && Trimmed(key) && '=' !in key && NoBreak(key) &&
    !IsPrefixChar(key[0]) && !IsCommentChar(key[0]) && key[0] != '['
  }

  lemma TrimEntry(left: string, value: string)
    requires left != [] && !IsSpace(left[0])
    ensures Trim(left + "=" + value) == left + "=" + StripRight(White, value)
  {
    var s := left + "=" + value;
    assert s[0] == left[0];
    assert StripLeft(White, s) == s;
    var head := left + "=";
    assert head[|head| - 1] == '=' && !IsSpace('=');
    StripRightSuffix(head, value);
    assert StripRight(White, head) == head;
    if StripRight(White, value) == [] {
      assert head + [] == head;
    }
  }

  /** A prefixed key is trimmed and free of '='. */
  lemma PrefixedKey(prefix: string, key: string)
    requires IsPrefix(prefix) && CleanKey(key)
    ensures var left := prefix + key;
            left != [] && left[0] == (if prefix == [] then key[0] else prefix[0]) &&
            !IsSpace(left[0]) && Trimmed(left) && '=' !in left
  {
    var left := prefix + key;
    assert left[|left| - 1] == key[|key| - 1];
  }

  /** How an entry looks once stripped and cut at its first '='. */
  lemma EntryShape(prefix: string, key: string, value: string)
    requires IsPrefix(prefix) && CleanKey(key)
    ensures var left := prefix + key;
            var stripped := Trim(Entry(prefix, key, value));
            stripped != [] && left != [] && stripped[0] == left[0] &&
            Cut(stripped, '=') == Some((left, StripRight(White, value))) &&
            Trim(left) == left
  {
    var left := prefix + key;
    PrefixedKey(prefix, key);
    TrimEntry(left, value);
    var right := StripRight(White, value);
    assert left + ['='] + right == left + "=" + right;
    CutUnique(left, '=', right);
  }

  /** A written entry splits back into its prefix, key and trimmed value. */
  lemma EntryParses(prefix: string, key: string, value: string)
    requires IsPrefix(prefix) && CleanKey(key)
    ensures SplitAssignment(Entry(prefix, key, value)) == Some(Assignment(prefix, key, Trim(value)))
    ensures !HeaderLike(Entry(prefix, key, value)) && !Blank(Entry(prefix, key, value))
  {
    EntryShape(prefix, key, value);
    TrimOfStripRight(value);
    var left := prefix + key;
    if prefix != [] {
      assert left[1..] == key;
      assert prefix == [left[0]];
    } else {
      assert left == key;
    }
  }

  /** A reader finds a plain entry under its key, and no other entry. */
  lemma EntryReads(prefix: string, name: string, value: string, key: string)
    requires IsPrefix(prefix) && CleanKey(name) && CleanKey(key)
    ensures IniValue(Entry(prefix, name, value), key) ==
            if prefix == [] && name == key then Some(Strip(Quote, Trim(value))) else None
  {
    EntryShape(prefix, name, value);
    TrimOfStripRight(value);
    var left := prefix + name;
    if prefix == [] {
      assert left == name;
    } else {
      assert left[0] != key[0];
    }
  }

  /** A line that opens with ';' or '#' assigns nothing, whatever follows; nor does
      one without '='. What a line assigns is cut at its first '='. */
  lemma AssignsExactly(line: string, key: string)
    ensures var stripped := Trim(line);
            (stripped == [] || stripped[0] == ';' || stripped[0] == '#' || '=' !in stripped <==>
              SplitAssignment(line) == None) &&
            (SplitAssignment(line) == None ==> IniValue(line, key) == None)
    ensures forall left, right ::
              Trim(line) == left + "=" + right && '=' !in left && left != [] && left[0] != ';' && left[0] != '#' ==>
                var a := SplitAssignment(line);
                a.Some? && a.value.value == Trim(right) &&
                (if Trim(left) != [] && Trim(left)[0] in "+-.!"
                 then a.value.prefix == [Trim(left)[0]] && a.value.key == Trim(Trim(left)[1..])
                 else a.value.prefix == [] && a.value.key == Trim(left))
  {
    hide Trim, Strip;
    forall left, right | Trim(line) == left + "=" + right && '=' !in left
      ensures Cut(Trim(line), '=') == Some((left, right))
    {
      assert left + ['='] + right == left + "=" + right;
      CutUnique(left, '=', right);
    }
  }

  /** Whatever a reader finds under a clean key is a plain assignment to it,
      and every plain assignment outside a header is found. */
  lemma ReadsArePlain(line: string, key: string)
    requires CleanKey(key)
    ensures IniValue(line, key).Some? ==>
              SplitAssignment(line).Some? && SplitAssignment(line).value.prefix == [] &&
              SplitAssignment(line).value.key == key &&
              IniValue(line, key).value == Strip(Quote, SplitAssignment(line).value.value)
    ensures !HeaderLike(line) && SplitAssignment(line).Some? &&
            SplitAssignment(line).value.prefix == [] && SplitAssignment(line).value.key == key ==>
              IniValue(line, key).Some?
  {
  }

  /** Right-stripping a line changes nothing that is read from it. */
  lemma StripRightSame(line: string, key: string)
    ensures SplitAssignment(StripRight(White, line)) == SplitAssignment(line)
    ensures HeaderLike(StripRight(White, line)) == HeaderLike(line)
    ensures Blank(StripRight(White, line)) == Blank(line)
    ensures IniValue(StripRight(White, line), key) == IniValue(line, key)
  {
    TrimOfStripRight(line);
  }
}
