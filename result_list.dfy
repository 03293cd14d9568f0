/**
 * The results table's filter (components/ResultList.tsx): a group filter and
 * an event-type filter, each of which the sentinel 'All' switches off, and a
 * case-insensitive search that looks in the student name, the event name and
 * the register number. A record is shown when all three agree; shown records
 * keep their order.
 */
module ResultList {
  import opened Types
  import opened JsString
  import opened JsArray

  /** `GroupColor | 'All'`. */
  datatype GroupFilter = AllGroups | OnlyGroup(group: GroupColor)

  /** `EventType | 'All'`. */
  datatype EventFilter = AllEvents | OnlyEvent(eventType: EventType)

  predicate MatchesGroup(r: Result, groupFilter: GroupFilter) {
    groupFilter.AllGroups? || r.group == GroupName(groupFilter.group)
  }

  predicate MatchesEvent(r: Result, eventFilter: EventFilter) {
    eventFilter.AllEvents? || r.eventType == EventTypeName(eventFilter.eventType)
  }

  predicate MatchesSearch(r: Result, searchTerm: string) {
    var term := ToLower(searchTerm);
    Includes(ToLower(r.studentName), term)
    || Includes(ToLower(r.eventName), term)
    || Includes(ToLower(r.regNo), term)
  }

  predicate Matches(r: Result, groupFilter: GroupFilter, eventFilter: EventFilter, searchTerm: string) {
    MatchesGroup(r, groupFilter) && MatchesEvent(r, eventFilter) && MatchesSearch(r, searchTerm)
  }

  /** The predicate handed to `results.filter`. */
  function Matcher(groupFilter: GroupFilter, eventFilter: EventFilter, searchTerm: string): Result -> bool {
    r => Matches(r, groupFilter, eventFilter, searchTerm)
  }

  /** `filteredResults`. */
  function FilterResults(results: seq<Result>, groupFilter: GroupFilter, eventFilter: EventFilter,
                         searchTerm: string): seq<Result>
  {
    Filter(results, Matcher(groupFilter, eventFilter, searchTerm))
  }

  /**
   * The reference reading of the filter: the group is the chosen one (or any),
   * the event type is the chosen one (or any), and the lower-cased term is a
   * substring of the lower-cased name, event name or register number.
   */
  ghost predicate Selected(r: Result, groupFilter: GroupFilter, eventFilter: EventFilter, searchTerm: string) {
    && (groupFilter == AllGroups || exists g :: groupFilter == OnlyGroup(g) && r.group == GroupName(g))
    && (eventFilter == AllEvents || exists e :: eventFilter == OnlyEvent(e) && r.eventType == EventTypeName(e))
    && (|| IsSubstring(ToLower(searchTerm), ToLower(r.studentName))
        || IsSubstring(ToLower(searchTerm), ToLower(r.eventName))
        || IsSubstring(ToLower(searchTerm), ToLower(r.regNo)))
  }

  lemma MatchesIsSelected(r: Result, groupFilter: GroupFilter, eventFilter: EventFilter, searchTerm: string)
    ensures Matches(r, groupFilter, eventFilter, searchTerm) <==> Selected(r, groupFilter, eventFilter, searchTerm)
  {
    var term := ToLower(searchTerm);
    IncludesIsSubstring(ToLower(r.studentName), term);
    IncludesIsSubstring(ToLower(r.eventName), term);
    IncludesIsSubstring(ToLower(r.regNo), term);
  }

  /** A record is shown exactly when it is in the input and all three conditions hold. */
  lemma FilterMembership(results: seq<Result>, groupFilter: GroupFilter, eventFilter: EventFilter,
                         searchTerm: string, r: Result)
    ensures r in FilterResults(results, groupFilter, eventFilter, searchTerm)
        <==> r in results && Selected(r, groupFilter, eventFilter, searchTerm)
  {
    MatchesIsSelected(r, groupFilter, eventFilter, searchTerm);
  }

  /** Shown records appear in the input in the same relative order; there are no more of them. */
  lemma FilterKeepsOrder(results: seq<Result>, groupFilter: GroupFilter, eventFilter: EventFilter,
                         searchTerm: string)
    ensures IsSubsequence(FilterResults(results, groupFilter, eventFilter, searchTerm), results)
    ensures |FilterResults(results, groupFilter, eventFilter, searchTerm)| <= |results|
  {
    FilterIsSubsequence(results, Matcher(groupFilter, eventFilter, searchTerm));
  }

  /** 'All', 'All' and an empty search show every record, in order. */
  lemma NoFilterShowsAll(results: seq<Result>)
    ensures FilterResults(results, AllGroups, AllEvents, "") == results
  {
    forall r | r in results ensures Matches(r, AllGroups, AllEvents, "") {
      IncludesEmpty(ToLower(r.studentName));
    }
    FilterKeepsAll(results, Matcher(AllGroups, AllEvents, ""));
  }

  /** Search terms that differ only in letter case show the same records. */
  lemma SearchIgnoresCase(results: seq<Result>, groupFilter: GroupFilter, eventFilter: EventFilter,
                          term1: string, term2: string)
    requires ToLower(term1) == ToLower(term2)
    ensures FilterResults(results, groupFilter, eventFilter, term1)
         == FilterResults(results, groupFilter, eventFilter, term2)
  {
    FilterAgreeing(results, Matcher(groupFilter, eventFilter, term1), Matcher(groupFilter, eventFilter, term2));
  }

  /** The search term's own case never matters. */
  lemma SearchTermLowered(results: seq<Result>, groupFilter: GroupFilter, eventFilter: EventFilter,
                          term: string)
    ensures FilterResults(results, groupFilter, eventFilter, term)
         == FilterResults(results, groupFilter, eventFilter, ToLower(term))
  {
    ToLowerIdempotent(term);
    SearchIgnoresCase(results, groupFilter, eventFilter, term, ToLower(term));
  }

  /** A group no record belongs to shows nothing (an empty table, not an error). */
  lemma AbsentGroupShowsNothing(results: seq<Result>, g: GroupColor, eventFilter: EventFilter,
                                searchTerm: string)
    requires forall r :: r in results ==> r.group != GroupName(g)
    ensures FilterResults(results, OnlyGroup(g), eventFilter, searchTerm) == []
  {
  }

  /** Filtering the shown records again with the same settings changes nothing. */
  lemma FilterIdempotentResults(results: seq<Result>, groupFilter: GroupFilter, eventFilter: EventFilter,
                                searchTerm: string)
    ensures FilterResults(FilterResults(results, groupFilter, eventFilter, searchTerm),
                          groupFilter, eventFilter, searchTerm)
         == FilterResults(results, groupFilter, eventFilter, searchTerm)
  {
    FilterIdempotent(results, Matcher(groupFilter, eventFilter, searchTerm));
  }

  /** With no search term, a group and an event type select exactly the records with both. */
  lemma GroupAndEventOnly(results: seq<Result>, g: GroupColor, e: EventType)
    ensures FilterResults(results, OnlyGroup(g), OnlyEvent(e), "")
         == Filter(results, (r: Result) => r.group == GroupName(g) && r.eventType == EventTypeName(e))
  {
    forall r | r in results
      ensures Matches(r, OnlyGroup(g), OnlyEvent(e), "")
          == (r.group == GroupName(g) && r.eventType == EventTypeName(e))
    {
      IncludesEmpty(ToLower(r.studentName));
    }
    FilterAgreeing(results, Matcher(OnlyGroup(g), OnlyEvent(e), ""),
                   (r: Result) => r.group == GroupName(g) && r.eventType == EventTypeName(e));
  }

  lemma LowerJohnDoe()
    ensures ToLower("John Doe") == "john doe"
  {
    var name := ToLower("John Doe");
    assert name[0] == LowerChar('J') == 'j';
    assert name[1] == 'o' && name[2] == 'h' && name[3] == 'n' && name[4] == ' ';
    assert name[5] == LowerChar('D') == 'd';
    assert name[6] == 'o' && name[7] == 'e';
  }

  lemma LowerTerms()
    ensures ToLower("john") == "john" && ToLower("JOHN") == "john" && ToLower("Doe") == "doe"
  {
    var a, b, c := ToLower("john"), ToLower("JOHN"), ToLower("Doe");
    assert a[0] == 'j' && a[1] == 'o' && a[2] == 'h' && a[3] == 'n';
    assert b[0] == LowerChar('J') == 'j' && b[1] == LowerChar('O') == 'o';
    assert b[2] == LowerChar('H') == 'h' && b[3] == LowerChar('N') == 'n';
    assert c[0] == LowerChar('D') == 'd' && c[1] == 'o' && c[2] == 'e';
  }

  /** "john", "JOHN" and "Doe" all find the student "John Doe". */
  lemma SearchFindsJohnDoe(r: Result)
    requires r.studentName == "John Doe"
    ensures MatchesSearch(r, "john") && MatchesSearch(r, "JOHN") && MatchesSearch(r, "Doe")
  {
    LowerJohnDoe();
    LowerTerms();
    var name: string := "john doe";
    assert name[0..4] == "john";
    OccurrenceIncluded("john", name, 0);
    assert name[5..8] == "doe";
    OccurrenceIncluded("doe", name, 5);
    NameMatches(r, "john");
    NameMatches(r, "JOHN");
    NameMatches(r, "Doe");
  }

  lemma NameMatches(r: Result, term: string)
    requires Includes(ToLower(r.studentName), ToLower(term))
    ensures MatchesSearch(r, term)
  {
  }

  lemma OccurrenceIncluded(t: string, s: string, i: nat)
    requires i + |t| <= |s| && s[i..i + |t|] == t
    ensures Includes(s, t)
  {
    assert OccursAt(t, s, i);
    IncludesIsSubstring(s, t);
  }

}
