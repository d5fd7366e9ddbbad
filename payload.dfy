/** The decrypted token text: newline-separated `key: value` lines, parsed by
    `parse_qr_data` into a dictionary (exit-scanner.py and
    modified-entrance-scanner.py hold the same definition). */
module Payload {
  import opened Records

  /** `s.split("\n")`: always at least one piece, and no piece holds a newline. */
  function Split(s: string): (lines: seq<string>)
    ensures |lines| >= 1
    ensures forall i :: 0 <= i < |lines| ==> '\n' !in lines[i]
  {
    if |s| == 0 then [""]
    else
      var rest := Split(s[1..]);
      if s[0] == '\n' then [""] + rest
      else [[s[0]] + rest[0]] + rest[1..]
  }

  /** `"\n".join(lines)`, the inverse of Split. */
  function JoinLines(lines: seq<string>): string
    requires |lines| >= 1
  {
    if |lines| == 1 then lines[0] else lines[0] + "\n" + JoinLines(lines[1..])
  }

  lemma {:induction false} JoinSplit(s: string)
    ensures JoinLines(Split(s)) == s
  {
    if |s| > 0 {
      JoinSplit(s[1..]);
      var rest := Split(s[1..]);
      if s[0] == '\n' {
        assert Split(s)[1..] == rest;
        assert s == [s[0]] + s[1..];
      } else {
        if |rest| == 1 {
          assert s == [s[0]] + rest[0];
        } else {
          assert Split(s)[1..] == rest[1..];
          assert s == [s[0]] + s[1..];
        }
      }
    }
  }

  /** Splitting a newline-free piece followed by a newline peels that piece off. */
  lemma {:induction false} SplitPrefix(a: string, b: string)
    requires '\n' !in a
    ensures Split(a + "\n" + b) == [a] + Split(b)
  {
    if |a| == 0 {
      assert a + "\n" + b == "\n" + b;
      assert ("\n" + b)[1..] == b;
    } else {
      assert (a + "\n" + b)[1..] == a[1..] + "\n" + b;
      SplitPrefix(a[1..], b);
      assert [a[0]] + a[1..] == a;
    }
  }

  lemma {:induction false} SplitSingle(a: string)
    requires '\n' !in a
    ensures Split(a) == [a]
  {
    if |a| > 0 {
      SplitSingle(a[1..]);
      assert [a[0]] + a[1..] == a;
    }
  }

  lemma {:induction false} SplitJoin(lines: seq<string>)
    requires |lines| >= 1
    requires forall i :: 0 <= i < |lines| ==> '\n' !in lines[i]
    ensures Split(JoinLines(lines)) == lines
  {
    if |lines| == 1 {
      SplitSingle(lines[0]);
    } else {
      SplitJoin(lines[1..]);
      SplitPrefix(lines[0], JoinLines(lines[1..]));
      assert [lines[0]] + lines[1..] == lines;
    }
  }

  /** The separator ": " starts at index i of s. */
  predicate SepAt(s: string, i: int)
  {
    0 <= i && i + 1 < |s| && s[i] == ':' && s[i + 1] == ' '
  }

  /** `": " not in s` */
  ghost predicate NoSep(s: string)
  {
    forall i :: !SepAt(s, i)
  }

  /** The index of the first ": " in `line`, as `": " in line` and
      `line.split(": ", 1)` find it. */
  function FindSep(line: string): (r: Option<nat>)
    ensures r.Some? ==> SepAt(line, r.value)
    ensures r.Some? ==> forall j :: 0 <= j < r.value ==> !SepAt(line, j)
    ensures r.None? ==> NoSep(line)
  {
    if |line| < 2 then None
    else if line[0] == ':' && line[1] == ' ' then Some(0)
    else
      assert forall j :: 1 <= j ==> (SepAt(line, j) <==> SepAt(line[1..], j - 1));
      match FindSep(line[1..])
      case None => None
      case Some(i) => Some(i + 1)
  }

  /** What one line contributes to the dictionary: nothing when it holds no
      ": ", otherwise the text before the first ": " and the rest. */
  function Entry(line: string): (r: Option<(string, string)>)
    ensures r.None? <==> NoSep(line)
    ensures r.Some? ==> line == r.value.0 + ": " + r.value.1
    ensures r.Some? ==> NoSep(r.value.0)
    ensures r.Some? && '\n' !in line ==> '\n' !in r.value.0 && '\n' !in r.value.1
  {
    match FindSep(line)
    case None => None
    case Some(i) =>
      var key, val := line[..i], line[i + 2..];
      assert forall j :: SepAt(key, j) ==> SepAt(line, j);
      assert line == key + ": " + val;
      Some((key, val))
  }

  /** Rendering `key + ": " + value` and reading it back recovers both, for any
      key without ": " (the value may hold ": " itself). */
  lemma KeyValueRoundTrip(key: string, val: string)
    requires NoSep(key)
    ensures Entry(key + ": " + val) == Some((key, val))
  {
    var line := key + ": " + val;
    assert SepAt(line, |key|);
    forall j | 0 <= j < |key|
      ensures !SepAt(line, j)
    {
      if j + 1 < |key| {
        assert !SepAt(key, j);
      }
    }
    assert FindSep(line) == Some(|key|);
    assert line[..|key|] == key;
    assert line[|key| + 2..] == val;
  }

  /** `dict(line.split(": ", 1) for line in lines if ": " in line)`: the
      lines are inserted first to last, so a later key overwrites an earlier one. */
  function ParseLines(lines: seq<string>): (m: map<string, string>)
    ensures forall k :: k in m ==> NoSep(k)
    ensures (forall i :: 0 <= i < |lines| ==> '\n' !in lines[i]) ==>
              forall k :: k in m ==> '\n' !in k && '\n' !in m[k]
  {
    if |lines| == 0 then map[]
    else
      var m := ParseLines(lines[..|lines| - 1]);
      match Entry(lines[|lines| - 1])
      case None => m
      case Some(kv) => m[kv.0 := kv.1]
  }

  /** `parse_qr_data`: no key holds ": " and no key or value holds a newline,
      so every entry could be rendered back as one line; the empty token gives
      the empty dictionary. */
  function ParseQr(text: string): (r: map<string, string>)
    ensures forall k :: k in r ==> NoSep(k) && '\n' !in k && '\n' !in r[k]
    ensures text == "" ==> r == map[]
  {
    assert text == "" ==> Split(text) == [""] && [""][..0] == [] && Entry("").None?;
    ParseLines(Split(text))
  }

  /** Line i of `lines` is a `key: value` line whose key is k. */
  predicate KeyedAt(lines: seq<string>, i: int, k: string)
  {
    0 <= i < |lines| && Entry(lines[i]).Some? && Entry(lines[i]).value.0 == k
  }

  /** Every key of the dictionary comes from a line, and its value is that of
      the last line with that key. */
  lemma {:induction false} ParsedKeyIsLastLine(lines: seq<string>, k: string)
    requires k in ParseLines(lines)
    ensures exists i :: (KeyedAt(lines, i, k)
                         && Entry(lines[i]).value.1 == ParseLines(lines)[k]
                         && forall j :: i < j < |lines| ==> !KeyedAt(lines, j, k))
  {
    var n := |lines| - 1;
    var init := lines[..n];
    assert forall j :: 0 <= j < n ==> (KeyedAt(init, j, k) <==> KeyedAt(lines, j, k));
    if KeyedAt(lines, n, k) {
      assert Entry(lines[n]).value.1 == ParseLines(lines)[k];
    } else {
      assert k in ParseLines(init) && ParseLines(init)[k] == ParseLines(lines)[k];
      ParsedKeyIsLastLine(init, k);
      var i :| KeyedAt(init, i, k)
        && Entry(init[i]).value.1 == ParseLines(init)[k]
        && forall j :: i < j < n ==> !KeyedAt(init, j, k);
      assert KeyedAt(lines, i, k);
    }
  }

  /** The last line with key k gives k its value. */
  lemma {:induction false} LastLineIsParsed(lines: seq<string>, i: int, k: string)
    requires KeyedAt(lines, i, k)
    requires forall j :: i < j < |lines| ==> !KeyedAt(lines, j, k)
    ensures k in ParseLines(lines)
    ensures ParseLines(lines)[k] == Entry(lines[i]).value.1
  {
    var n := |lines| - 1;
    var init := lines[..n];
    if i < n {
      assert KeyedAt(init, i, k);
      forall j | i < j < n
        ensures !KeyedAt(init, j, k)
      {
        assert !KeyedAt(lines, j, k);
      }
      LastLineIsParsed(init, i, k);
      assert !KeyedAt(lines, n, k);
    }
  }

  /** A key that no line carries is not in the dictionary. */
  lemma {:induction false} UnkeyedIsAbsent(lines: seq<string>, k: string)
    requires forall j :: 0 <= j < |lines| ==> !KeyedAt(lines, j, k)
    ensures k !in ParseLines(lines)
  {
    if |lines| > 0 {
      var n := |lines| - 1;
      var init := lines[..n];
      forall j | 0 <= j < n
        ensures !KeyedAt(init, j, k)
      {
        assert !KeyedAt(lines, j, k);
      }
      UnkeyedIsAbsent(init, k);
      assert !KeyedAt(lines, n, k);
    }
  }

  /** A line without ": " can be removed without changing the dictionary. */
  lemma {:induction false} SeparatorFreeLineIgnored(pre: seq<string>, line: string, post: seq<string>)
    requires NoSep(line)
    ensures ParseLines(pre + [line] + post) == ParseLines(pre + post)
  {
    if |post| == 0 {
      assert pre + [line] + post == pre + [line];
      assert (pre + [line])[..|pre|] == pre;
      assert pre + post == pre;
    } else {
      var last := post[|post| - 1];
      var init := post[..|post| - 1];
      SeparatorFreeLineIgnored(pre, line, init);
      assert (pre + [line] + post)[..|pre + [line] + post| - 1] == pre + [line] + init;
      assert (pre + post)[..|pre + post| - 1] == pre + init;
    }
  }

  /** `dict(fields)`: the dictionary a token's author means, later pairs winning. */
  function FieldMap(fields: seq<(string, string)>): map<string, string>
  {
    if |fields| == 0 then map[]
    else FieldMap(fields[..|fields| - 1])[fields[|fields| - 1].0 := fields[|fields| - 1].1]
  }

  /** One `key: value` line per field, in order. */
  function RenderLines(fields: seq<(string, string)>): (lines: seq<string>)
    ensures |lines| == |fields|
    ensures forall i :: 0 <= i < |fields| ==> lines[i] == fields[i].0 + ": " + fields[i].1
  {
    if |fields| == 0 then []
    else RenderLines(fields[..|fields| - 1]) + [fields[|fields| - 1].0 + ": " + fields[|fields| - 1].1]
  }

  /** Keys without ": " and keys and values without newlines survive a render. */
  ghost predicate Renderable(fields: seq<(string, string)>)
  {
    forall i :: 0 <= i < |fields| ==> NoSep(fields[i].0) && '\n' !in fields[i].0 && '\n' !in fields[i].1
  }

  lemma {:induction false} ParseRenderedLines(fields: seq<(string, string)>)
    requires Renderable(fields)
    ensures ParseLines(RenderLines(fields)) == FieldMap(fields)
  {
    if |fields| > 0 {
      var n := |fields| - 1;
      ParseRenderedLines(fields[..n]);
      assert RenderLines(fields)[..n] == RenderLines(fields[..n]);
      KeyValueRoundTrip(fields[n].0, fields[n].1);
    }
  }

  /** Parsing the newline-joined rendering of a non-empty field list gives
      back the dictionary of those fields. */
  lemma ParseQrRoundTrip(fields: seq<(string, string)>)
    requires |fields| >= 1
    requires Renderable(fields)
    ensures ParseQr(JoinLines(RenderLines(fields))) == FieldMap(fields)
  {
    var lines := RenderLines(fields);
    forall i | 0 <= i < |lines|
      ensures '\n' !in lines[i]
    {
      assert lines[i] == fields[i].0 + ": " + fields[i].1;
    }
    SplitJoin(lines);
    ParseRenderedLines(fields);
  }

  /** The uid a payload names, when its "uid" value is present and non-empty
      (`qr_data.get("uid")` followed by `if user_id:`). */
  function TokenUid(text: string): (r: Option<string>)
    ensures r.Some? <==> "uid" in ParseQr(text) && ParseQr(text)["uid"] != ""
    ensures r.Some? ==> r.value == ParseQr(text)["uid"] && r.value != "" && '\n' !in r.value
  {
    var m := ParseQr(text);
    if "uid" in m && m["uid"] != "" then Some(m["uid"]) else None
  }
}
