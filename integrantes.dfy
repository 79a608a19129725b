/**
 * The household roster form: the text typed into the entry is split at every
 * comma, each piece is stripped, and the list replaces the stored roster.
 */
module Integrantes {
  import opened Wrappers
  import opened Text

  /** Python's `s.split(',')`: the pieces between commas, empty pieces included. */
  function Split(s: string): (parts: seq<string>)
    ensures |parts| == Count(s, ',') + 1
    ensures forall i :: 0 <= i < |parts| ==> ',' !in parts[i]
  {
    if s == [] then [[]]
    else
      var rest := Split(s[1..]);
      if s[0] == ',' then [[]] + rest
      else
        assert ',' !in rest[0];
        [[s[0]] + rest[0]] + rest[1..]
  }

  /** Python's `','.join(parts)`. */
  function Join(parts: seq<string>): string
    requires |parts| >= 1
  {
    if |parts| == 1 then parts[0] else parts[0] + "," + Join(parts[1..])
  }

  /** Splitting loses nothing: joining the pieces gives the text back. */
  lemma {:induction false} JoinSplit(s: string)
    ensures Join(Split(s)) == s
  {
    if s != [] {
      JoinSplit(s[1..]);
      var rest := Split(s[1..]);
      if s[0] == ',' {
        assert Split(s) == [[]] + rest;
        assert Split(s)[1..] == rest;
      } else {
        var parts := Split(s);
        assert parts[0] == [s[0]] + rest[0] && parts[1..] == rest[1..];
        if |rest| > 1 {
          assert Join(parts) == ([s[0]] + rest[0]) + "," + Join(rest[1..]);
          assert Join(rest) == rest[0] + "," + Join(rest[1..]);
        }
        assert s == [s[0]] + s[1..];
      }
    }
  }

  /** A piece with no comma is not split any further. */
  lemma {:induction false} SplitPlain(x: string, y: string)
    requires ',' !in x
    ensures Split(x) == [x]
    ensures Split(x + "," + y) == [x] + Split(y)
  {
    if x == [] {
      assert x + "," + y == [','] + y;
      assert ([','] + y)[1..] == y;
    } else {
      assert (x + "," + y)[1..] == x[1..] + "," + y;
      SplitPlain(x[1..], y);
      assert [x[0]] + x[1..] == x;
    }
  }

  /** Joining comma-free pieces and splitting again gives the pieces back. */
  lemma {:induction false} SplitJoin(parts: seq<string>)
    requires |parts| >= 1
    requires forall i :: 0 <= i < |parts| ==> ',' !in parts[i]
    ensures Split(Join(parts)) == parts
  {
    if |parts| == 1 {
      SplitPlain(parts[0], "");
    } else {
      SplitJoin(parts[1..]);
      SplitPlain(parts[0], Join(parts[1..]));
      assert parts == [parts[0]] + parts[1..];
    }
  }

  /** `[nome.strip() for nome in text.split(',')]`. */
  function ParseRoster(text: string): (names: seq<string>)
    ensures |names| == Count(text, ',') + 1
    ensures forall i :: 0 <= i < |names| ==> ',' !in names[i] && IsTrimmed(names[i])
  {
    var parts := Split(text);
    var names := seq(|parts|, i requires 0 <= i < |parts| => Trim(parts[i]));
    assert forall i :: 0 <= i < |names| ==> ',' !in names[i] by {
      forall i | 0 <= i < |names| ensures ',' !in names[i] {
        if ',' in names[i] {
          TrimChars(parts[i], ',');
        }
      }
    }
    names
  }

  /** The i-th name is the i-th comma-separated piece of the text, stripped. */
  lemma ParseRosterPieces(text: string, i: nat)
    requires i < Count(text, ',') + 1
    ensures ParseRoster(text)[i] == Trim(Split(text)[i])
  {
  }

  /** Parsing joined comma-free pieces strips each of them. */
  lemma ParseJoined(parts: seq<string>)
    requires |parts| >= 1
    requires forall i :: 0 <= i < |parts| ==> ',' !in parts[i]
    ensures |ParseRoster(Join(parts))| == |parts|
    ensures forall i :: 0 <= i < |parts| ==> ParseRoster(Join(parts))[i] == Trim(parts[i])
  {
    SplitJoin(parts);
  }

  /** A roster typed as its names separated by commas parses back to those names. */
  lemma ParseJoinedRoster(names: seq<string>)
    requires |names| >= 1
    requires forall i :: 0 <= i < |names| ==> ',' !in names[i] && IsTrimmed(names[i])
    ensures ParseRoster(Join(names)) == names
  {
    ParseJoined(names);
    forall i | 0 <= i < |names| ensures ParseRoster(Join(names))[i] == names[i] {
      TrimTrimmed(names[i]);
    }
  }

  /** An empty text is one empty name, not an empty roster. */
  lemma ParseRosterEmptyText()
    ensures ParseRoster("") == [""]
  {
    var one: seq<string> := [""];
    assert Join(one) == "";
    ParseJoinedRoster(one);
  }

  /** Empty pieces are kept, not dropped. */
  lemma ParseRosterKeepsEmpty()
    ensures ParseRoster("a,,b") == ["a", "", "b"]
  {
    var three: seq<string> := ["a", "", "b"];
    assert Join(three[2..]) == "b";
    assert Join(three[1..]) == ",b";
    assert Join(three) == "a,,b";
    assert forall i :: 0 <= i < 3 ==> ',' !in three[i] && IsTrimmed(three[i]);
    ParseJoinedRoster(three);
  }

  lemma JoinPair(a: string, b: string)
    ensures Join([a, b]) == a + "," + b
  {
    assert [a, b][1..] == [b];
  }

  /** Blanks around each name are stripped: " Ana , Bruno " gives ["Ana", "Bruno"]. */
  lemma ParseRosterStrips(a: string, b: string)
    requires a != [] && b != [] && IsTrimmed(a) && IsTrimmed(b) && ',' !in a && ',' !in b
    ensures ParseRoster([' '] + a + " , " + b + [' ']) == [a, b]
  {
    var pa, pb := [' '] + a + [' '], [' '] + b + [' '];
    JoinPair(pa, pb);
    assert pa + "," + pb == [' '] + a + " , " + b + [' '];
    assert ',' !in pa && ',' !in pb;
    ParseJoined([pa, pb]);
    TrimPadded(a);
    TrimPadded(b);
  }

  /**
   * `salvar_csv`: the roster file after saving holds exactly the parsed names,
   * whatever it held before.
   */
  function SaveRoster(prior: Option<seq<string>>, text: string): (file: Option<seq<string>>)
    ensures file.Some? && |file.value| == Count(text, ',') + 1
  {
    Some(ParseRoster(text))
  }
}
