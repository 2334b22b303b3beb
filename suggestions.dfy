/** Callsign suggestions from the user's own log: the latest QSO with a
    callsign supplies the QTH, a name found in its notes and a notes
    snippet; the most common band and mode complete the answer. */
module Suggestions {
  import opened Common
  import opened Text
  import opened Ids
  import opened QsoEntity
  import opened Grouping
  import opened Repository

  /** The longest snippet, and how much of longer notes it keeps. */
  const SnippetLength := 100
  const SnippetKeep := 97
  const Ellipsis := "..."

  /** The marker a name follows in the notes, matched in lower case. */
  const NameMarker := "name:"

  /** `truncateNotes`: null for null or empty notes, the notes themselves
      up to 100 characters, otherwise their first 97 characters and "...". */
  function TruncateNotes(notes: Option<string>): (r: Option<string>)
    ensures r.None? <==> notes.None? || notes.value == []
    ensures r.Some? ==> |r.value| <= SnippetLength
    ensures r.Some? && |notes.value| <= SnippetLength ==> r == notes
    ensures r.Some? && |notes.value| > SnippetLength ==>
      && |r.value| == SnippetLength
      && r.value[..SnippetKeep] == notes.value[..SnippetKeep]
      && r.value[SnippetKeep..] == Ellipsis
  {
    if notes.None? || notes.value == [] then None
    else if |notes.value| <= SnippetLength then notes
    else Some(notes.value[..SnippetKeep] + Ellipsis)
  }

  /** Where the name starts: just after the first "name:" of the notes
      read in lower case. */
  function NameStart(notes: string): (start: nat)
    requires Contains(ToLower(notes), NameMarker)
    ensures var k := IndexOf(ToLower(notes), NameMarker);
      && start == k + |NameMarker| && start <= |notes|
      && ToLower(notes[k..start]) == NameMarker
  {
    var low := ToLower(notes);
    var k := IndexOf(low, NameMarker);
    assert low[k..k + |NameMarker|] == ToLower(notes[k..k + |NameMarker|]);
    k + |NameMarker|
  }

  /** `notes.indexOf('\n', start)`, with the length for "absent". */
  function LineEnd(notes: string, start: nat): (e: nat)
    requires start <= |notes|
    ensures start <= e <= |notes|
    ensures '\n' !in notes[start..e]
    ensures e == |notes| || notes[e] == '\n'
  {
    var rest := notes[start..];
    var i := FindChar(rest, '\n');
    assert notes[start..start + i] == rest[..i];
    start + i
  }

  /** `extractNameFromQso`: the trimmed text from just after the first
      case-insensitive "name:" up to the next line break or the end. */
  function ExtractName(notes: Option<string>): (r: Option<string>)
    ensures r.None? <==> notes.None? || !Contains(ToLower(notes.value), NameMarker)
  {
    if notes.None? || !Contains(ToLower(notes.value), NameMarker) then None
    else
      var n := notes.value;
      var start := NameStart(n);
      Some(Trim(n[start..LineEnd(n, start)]))
  }

  /** The name is the trimmed rest of the marker's line: it starts after the
      first case-insensitive marker and stops before the next line break. */
  lemma ExtractNameIsRestOfLine(notes: string)
    requires Contains(ToLower(notes), NameMarker)
    ensures var k := IndexOf(ToLower(notes), NameMarker);
      && 0 <= k && k + |NameMarker| <= |notes|
      && ToLower(notes[k..k + |NameMarker|]) == NameMarker
      && (forall j | 0 <= j < k :: !OccursAt(ToLower(notes), NameMarker, j))
      && exists e | k + |NameMarker| <= e <= |notes| ::
           && ExtractName(Some(notes)) == Some(Trim(notes[k + |NameMarker|..e]))
           && '\n' !in notes[k + |NameMarker|..e]
           && (e == |notes| || notes[e] == '\n')
  {
    var start := NameStart(notes);
    var e := LineEnd(notes, start);
    assert ExtractName(Some(notes)) == Some(Trim(notes[start..e]));
  }

  /** The name never holds a line break, and it is trimmed. */
  lemma ExtractNameIsTrimmedLine(notes: Option<string>)
    ensures var r := ExtractName(notes);
      r.Some? ==> '\n' !in r.value && (r.value == [] || (r.value[0] > ' ' && r.value[|r.value| - 1] > ' '))
  {
    if ExtractName(notes).Some? {
      var n := notes.value;
      ExtractNameIsRestOfLine(n);
      var k := IndexOf(ToLower(n), NameMarker);
      var e :| k + |NameMarker| <= e <= |n| && ExtractName(notes) == Some(Trim(n[k + |NameMarker|..e]))
               && '\n' !in n[k + |NameMarker|..e] && (e == |n| || n[e] == '\n');
      TrimDropsNoInnerChar(n[k + |NameMarker|..e]);
    }
  }

  /** Every character of a trimmed string comes from the string. */
  lemma TrimDropsNoInnerChar(s: string)
    ensures forall c | c in Trim(s) :: c in s
  {
    var l := TrimLeading(s);
    assert forall c | c in l :: c in s by {
      forall c | c in l ensures c in s {
        var i :| 0 <= i < |l| && l[i] == c;
        assert s[|s| - |l| + i] == c;
      }
    }
    var t := TrimTrailing(l);
    forall c | c in t ensures c in l {
      var i :| 0 <= i < |t| && t[i] == c;
      assert l[i] == c;
    }
  }

  /** `CallsignSuggestionResponse`. */
  datatype CallsignSuggestion = CallsignSuggestion(
    callsign: string,
    name: Option<string>,
    qth: Option<string>,
    notesSnippet: Option<string>,
    band: Option<string>,
    mode: Option<string>)

  /** An empty string stands for "no value" in the zipped lookups. */
  function NonEmpty(s: string): (r: Option<string>)
    ensures r.None? <==> s == []
    ensures r.Some? ==> r.value == s
  {
    if s == [] then None else Some(s)
  }

  /** `getSuggestions`: nothing without a QSO with that callsign; otherwise
      the suggestion built from the latest one and the most common band and
      mode. */
  function GetSuggestions(rows: seq<QsoRecord>, userId: Uuid, callsign: string): Option<CallsignSuggestion> {
    var recent := FindMostRecentByCallsign(rows, userId, callsign);
    var band := MostCommonBandForCallsign(rows, userId, callsign).GetOr("");
    var mode := MostCommonModeForCallsign(rows, userId, callsign).GetOr("");
    if recent.None? then None
    else
      var notes := recent.value.contact.notes;
      Some(CallsignSuggestion(ToUpper(callsign), ExtractName(notes), recent.value.contact.qth,
                              TruncateNotes(notes), NonEmpty(band), NonEmpty(mode)))
  }

  /** There is a suggestion exactly when the user logged the callsign
      (ignoring case); it carries the upper-cased callsign, the QTH, name
      and snippet of the user's latest such QSO, and a band and a mode of
      the highest count among those QSOs. */
  lemma SuggestionsFromLatestQso(rows: seq<QsoRecord>, userId: Uuid, callsign: string)
    ensures var s := GetSuggestions(rows, userId, callsign);
      && (s.None? <==> forall x | x in rows :: !Holds(SameCallsign(userId, callsign), x))
      && (s.Some? ==>
            && s.value.callsign == ToUpper(callsign)
            && exists x | x in rows ::
                 && Holds(SameCallsign(userId, callsign), x)
                 && (forall y | y in rows && Holds(SameCallsign(userId, callsign), y) ::
                       Chronological(y) <= Chronological(x))
                 && s.value.qth == x.contact.qth
                 && s.value.name == ExtractName(x.contact.notes)
                 && s.value.notesSnippet == TruncateNotes(x.contact.notes))
  {
  }

  /** The suggested band is one of the most common among the user's QSOs
      with the callsign. */
  lemma SuggestedBandIsMostCommon(rows: seq<QsoRecord>, userId: Uuid, callsign: string)
    ensures var s := GetSuggestions(rows, userId, callsign);
      var m := Where(rows, SameCallsign(userId, callsign));
      s.Some? && s.value.band.Some? ==>
        && CountKey(m, BandOf, s.value.band.value) >= 1
        && forall x | x in m :: CountKey(m, BandOf, BandOf(x)) <= CountKey(m, BandOf, s.value.band.value)
  {
  }

  const ExampleNotes := "Nice CW QSO. Name: John"

  lemma ExampleMarker()
    ensures Contains(ToLower(ExampleNotes), NameMarker) && NameStart(ExampleNotes) == 18
  {
    var low := ToLower(ExampleNotes);
    assert low[13..18] == NameMarker by {
      assert LowerChar('N') == 'n';
    }
    assert forall j | 0 <= j < 13 :: !OccursAt(low, NameMarker, j) by {
      forall j | 0 <= j < 13 ensures !OccursAt(low, NameMarker, j) {
        assert low[j + 4] != ':';
      }
    }
    assert OccursAt(low, NameMarker, 13);
  }

  lemma ExampleLineEnd()
    ensures LineEnd(ExampleNotes, 18) == 23
  {
    var rest := ExampleNotes[18..];
    assert rest == " John";
    assert FindChar(rest, '\n') == 5;
  }

  lemma ExampleTrim()
    ensures Trim(ExampleNotes[18..23]) == "John"
  {
    var t := ExampleNotes[18..23];
    assert t == " John";
    assert t[0] == ' ' && t[1..] == "John";
    var john := "John";
    assert john[0] == 'J' && john[3] == 'n';
    assert TrimLeading(john) == john;
    assert TrimLeading(t) == john;
    assert TrimTrailing(john) == john;
  }

  /** "Nice CW QSO. Name: John" gives the name "John". */
  lemma ExtractNameExample()
    ensures ExtractName(Some(ExampleNotes)) == Some("John")
  {
    ExampleMarker();
    ExampleLineEnd();
    ExampleTrim();
  }
}
