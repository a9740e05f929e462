/**
 * A song as read from a contributor's list: one line `name,artist`, split on
 * every comma, accepted only when it has exactly two fields.
 */
module Songs {
  import opened Options

  /** A song: its name and its artist, stored exactly as given. */
  datatype Song = Song(songName: string, artist: string)
  {
    /** The display form `<name> by <artist>`: the name, then ` by `, then the artist. */
    function ToString(): (r: string)
      ensures |r| == |songName| + 4 + |artist|
      ensures r[..|songName|] == songName && r[|songName| + 4..] == artist
      ensures r[|songName| .. |songName| + 4] == " by "
    {
      songName + " by " + artist
    }
  }

  /** How many commas `s` holds. */
  function Commas(s: string): nat {
    multiset(s)[',']
  }

  /** The position of the first comma of `s`. */
  function FirstComma(s: string): (i: nat)
    requires ',' in s
    ensures i < |s| && s[i] == ',' && ',' !in s[..i]
  {
    if s[0] == ',' then 0
    else
      assert ',' in s[1..] by { var j :| 0 <= j < |s| && s[j] == ','; assert s[1..][j - 1] == ','; }
      var i := 1 + FirstComma(s[1..]);
      assert s[..i] == [s[0]] + s[1..][..i - 1];
      i
  }

  /** Cutting `s` at its first comma leaves one comma fewer after it. */
  lemma CommasAfterFirst(s: string, i: nat)
    requires i < |s| && s[i] == ',' && ',' !in s[..i]
    ensures Commas(s) == Commas(s[i + 1..]) + 1
  {
    assert s == s[..i] + ([','] + s[i + 1..]);
    assert multiset(s[..i])[','] == 0;
  }

  /**
   * The fields of `s` between its commas, empty fields included, so a string
   * with `c` commas has `c + 1` fields and none of them holds a comma.
   */
  function Fields(s: string): (r: seq<string>)
    ensures |r| == Commas(s) + 1
    ensures forall f :: 0 <= f < |r| ==> ',' !in r[f]
    decreases |s|
  {
    if ',' !in s then
      assert multiset(s)[','] == 0;
      [s]
    else
      var i := FirstComma(s);
      CommasAfterFirst(s, i);
      [s[..i]] + Fields(s[i + 1..])
  }

  /** The fields of a line glued back together with commas between them. */
  function Join(fields: seq<string>): string
    decreases |fields|
  {
    if |fields| == 0 then ""
    else if |fields| == 1 then fields[0]
    else fields[0] + "," + Join(fields[1..])
  }

  /** Joining a field in front of at least one more puts a comma between them. */
  lemma JoinCons(first: string, others: seq<string>)
    requires |others| >= 1
    ensures Join([first] + others) == first + "," + Join(others)
  {
    assert ([first] + others)[1..] == others;
  }

  /** Splitting loses nothing: the fields joined with commas give the line back. */
  lemma {:induction false} JoinFields(s: string)
    ensures Join(Fields(s)) == s
    decreases |s|
  {
    if ',' in s {
      var i := FirstComma(s);
      var first, rest := s[..i], s[i + 1..];
      assert Fields(s) == [first] + Fields(rest);
      JoinFields(rest);
      JoinCons(first, Fields(rest));
      assert s == first + "," + rest;
    }
  }

  /** In `a,b` with no comma in `a`, the first comma is the one right after `a`. */
  lemma FirstCommaOf(a: string, b: string)
    requires ',' !in a
    ensures ',' in a + "," + b && FirstComma(a + "," + b) == |a|
  {
    var s := a + "," + b;
    assert s[|a|] == ',';
    var i := FirstComma(s);
    assert forall k :: 0 <= k < |a| ==> s[k] == a[k];
    assert forall k :: 0 <= k < i ==> s[..i][k] == s[k];
  }

  /** The fields of `a,b` with no comma in `a` are `a` followed by the fields of `b`. */
  lemma FieldsAfterFirst(a: string, b: string)
    requires ',' !in a
    ensures Fields(a + "," + b) == [a] + Fields(b)
  {
    var s := a + "," + b;
    FirstCommaOf(a, b);
    assert s[..|a|] == a;
    assert s[|a| + 1..] == b;
  }

  /** Joining comma-free fields and splitting again gives the same fields. */
  lemma {:induction false} FieldsJoin(fields: seq<string>)
    requires |fields| >= 1
    requires forall f :: 0 <= f < |fields| ==> ',' !in fields[f]
    ensures Fields(Join(fields)) == fields
    decreases |fields|
  {
    if |fields| >= 2 {
      var first, others := fields[0], fields[1..];
      assert fields == [first] + others;
      JoinCons(first, others);
      FieldsAfterFirst(first, Join(others));
      FieldsJoin(others);
    }
  }

  /**
   * A line becomes a song exactly when it has one comma; the song's name is
   * the text before it and its artist the text after it, untrimmed.
   */
  function ProcessSong(line: string): (r: Option<Song>)
    ensures r.Some? <==> Commas(line) == 1
    ensures r.Some? ==>
      && line == r.value.songName + "," + r.value.artist
      && ',' !in r.value.songName && ',' !in r.value.artist
  {
    var fields := Fields(line);
    JoinFields(line);
    if |fields| != 2 then None
    else
      assert Join(fields) == fields[0] + "," + Join(fields[1..]);
      Some(Song(fields[0], fields[1]))
  }

  /**
   * A name and an artist without commas, written as `name,artist`, read back
   * as that song, which displays as `name by artist`.
   */
  lemma ProcessSongRoundTrip(name: string, artist: string)
    requires ',' !in name && ',' !in artist
    ensures ProcessSong(name + "," + artist) == Some(Song(name, artist))
    ensures ProcessSong(name + "," + artist).value.ToString() == name + " by " + artist
  {
    assert Join([name, artist]) == name + "," + artist;
    FieldsJoin([name, artist]);
  }
}
