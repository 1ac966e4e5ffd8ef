/** The rules of the story views: which new stories are accepted, which stories
    a listing selects and how each is rendered, and what creating and deleting
    a story do to the story table. */
module StoryRules {
  import opened Types
  import opened Decimal
  import opened Session

  const CATEGORIES: set<string> := {"pol", "art", "tech", "trivia"}
  const REGIONS: set<string> := {"uk", "eu", "w"}

  /** A view's response together with the story table it leaves behind. */
  datatype StoryStep = StoryStep(response: Response, stories: map<nat, Story>)

  // ---------------------------------------------------------------------------
  // The user table

  /** Usernames are unique in the user table. */
  ghost predicate UniqueUsernames(users: map<nat, string>) {
    forall a, b :: a in users && b in users && users[a] == users[b] ==> a == b
  }

  /** Every story's author is a row of the user table. */
  ghost predicate AuthorsKnown(stories: map<nat, Story>, users: map<nat, string>) {
    forall id :: id in stories ==> stories[id].authorId in users
  }

  /** At most one user has this username. */
  ghost predicate SoleUser(users: map<nat, string>, name: string) {
    forall a, b :: a in users && b in users && users[a] == name && users[b] == name ==> a == b
  }

  /** User.objects.get(username=name): the one user with that username; None
      when there is none (DoesNotExist) or more than one (MultipleObjectsReturned). */
  ghost function AuthorId(users: map<nat, string>, name: string): (r: Option<nat>)
    ensures r.Some? <==> (exists id :: id in users && users[id] == name) && SoleUser(users, name)
    ensures r.Some? ==> r.value in users && users[r.value] == name
    ensures r.Some? ==> forall id :: id in users && users[id] == name ==> id == r.value
  {
    if name in users.Values && SoleUser(users, name) then
      Some(var id :| id in users && users[id] == name; id)
    else None
  }

  /** With unique usernames the lookup fails only for a name no user has. */
  lemma UniqueLookup(users: map<nat, string>, name: string)
    requires UniqueUsernames(users)
    ensures AuthorId(users, name).Some? <==> name in users.Values
  {
  }

  // ---------------------------------------------------------------------------
  // Creating a story

  datatype Rejection = EmptyField | InvalidCategory | InvalidRegion

  /** The checks a new story must pass, in the order the view makes them. */
  function Validate(headline: string, category: string, region: string, details: string): (r: Option<Rejection>)
    ensures r == None <==>
              headline != "" && details != "" && category in CATEGORIES && region in REGIONS
    ensures r == Some(EmptyField) <==>
              headline == "" || category == "" || region == "" || details == ""
    ensures r == Some(InvalidCategory) <==>
              headline != "" && region != "" && details != "" && category != "" && category !in CATEGORIES
    ensures r == Some(InvalidRegion) <==>
              headline != "" && details != "" && category in CATEGORIES && region != "" && region !in REGIONS
  {
    if headline == "" || category == "" || region == "" || details == "" then
      Some(EmptyField)
    else if category != "pol" && category != "art" && category != "tech" && category != "trivia" then
      Some(InvalidCategory)
    else if region != "uk" && region != "eu" && region != "w" then
      Some(InvalidRegion)
    else
      None
  }

  predicate HasStoryFields(body: Fields) {
    HEADLINE_KEY in body && CATEGORY_KEY in body && REGION_KEY in body && DETAILS_KEY in body
  }

  /** Reading the body and looking up the author succeed: the body is a JSON
      object with the four fields, and the session names an existing user. */
  ghost predicate CanReadStory(s: SessionBag, body: Option<Fields>, users: map<nat, string>) {
    && body.Some? && HasStoryFields(body.value)
    && USERNAME_KEY in s && AuthorId(users, s[USERNAME_KEY]).Some?
  }

  ghost predicate IsValidStory(body: Fields)
    requires HasStoryFields(body)
  {
    Validate(body[HEADLINE_KEY], body[CATEGORY_KEY], body[REGION_KEY], body[DETAILS_KEY]).None?
  }

  /** The post_story view, with newId the id the datastore gives a new row. */
  ghost function PostStory(s: SessionBag, body: Option<Fields>, users: map<nat, string>,
                           stories: map<nat, Story>, today: int, newId: nat): (r: StoryStep)
    requires newId !in stories
    ensures r.response == Message(STATUS_UNAUTHORIZED) <==> !IsLoggedIn(s)
    ensures r.response == Error <==> IsLoggedIn(s) && !CanReadStory(s, body, users)
    ensures r.response == Message(STATUS_BAD_REQUEST) <==>
              IsLoggedIn(s) && CanReadStory(s, body, users) && !IsValidStory(body.value)
    ensures r.response == Message(STATUS_OK) <==>
              IsLoggedIn(s) && CanReadStory(s, body, users) && IsValidStory(body.value)
    ensures r.response != Message(STATUS_OK) ==> r.stories == stories
    ensures r.response == Message(STATUS_OK) ==>
              && newId in r.stories
              && r.stories - {newId} == stories
              && |r.stories| == |stories| + 1
              && r.stories[newId].headline == body.value[HEADLINE_KEY]
              && r.stories[newId].category == body.value[CATEGORY_KEY]
              && r.stories[newId].region == body.value[REGION_KEY]
              && r.stories[newId].details == body.value[DETAILS_KEY]
              && r.stories[newId].date == today
              && r.stories[newId].authorId in users
              && users[r.stories[newId].authorId] == s[USERNAME_KEY]
  {
    if !IsLoggedIn(s) then
      StoryStep(Message(STATUS_UNAUTHORIZED), stories)
    else if body.None? || !HasStoryFields(body.value) then
      StoryStep(Error, stories)
    else
      var b := body.value;
      var headline, category, region, details := b[HEADLINE_KEY], b[CATEGORY_KEY], b[REGION_KEY], b[DETAILS_KEY];
      if USERNAME_KEY !in s || AuthorId(users, s[USERNAME_KEY]).None? then
        StoryStep(Error, stories)
      else
        var author := AuthorId(users, s[USERNAME_KEY]).value;
        if Validate(headline, category, region, details).Some? then
          StoryStep(Message(STATUS_BAD_REQUEST), stories)
        else
          StoryStep(Message(STATUS_OK), stories[newId := Story(headline, category, region, details, today, author)])
  }

  /** The datastore can always find an id for a new story. */
  ghost function FreshId(ids: set<nat>): (r: nat)
    ensures r !in ids
    ensures forall k :: k in ids ==> k < r
    decreases |ids|
  {
    if ids == {} then 0
    else
      var k :| k in ids;
      var rest := FreshId(ids - {k});
      assert forall j :: j in ids ==> j == k || j in ids - {k};
      if k < rest then rest else k + 1
  }

  /** A user who has just logged in can post a valid story, and can no
      longer post once logged out. */
  lemma LoginEnablesPost(s: SessionBag, form: Fields, authenticate: (string, string) -> bool,
                         body: Fields, users: map<nat, string>, stories: map<nat, Story>,
                         today: int, newId: nat)
    requires newId !in stories
    requires HasCredentials(form) && authenticate(form[FORM_USERNAME], form[FORM_PASSWORD])
    requires UniqueUsernames(users) && form[FORM_USERNAME] in users.Values
    requires HasStoryFields(body) && IsValidStory(body)
    ensures
      var s1 := Session.Login(s, form, authenticate).session;
      && PostStory(s1, Some(body), users, stories, today, newId).response == Message(STATUS_OK)
      && PostStory(Logout(s1).session, Some(body), users, stories, today, newId).response
         == Message(STATUS_UNAUTHORIZED)
  {
    var s1 := Session.Login(s, form, authenticate).session;
    assert IsLoggedIn(s1) && s1[USERNAME_KEY] == form[FORM_USERNAME];
    UniqueLookup(users, form[FORM_USERNAME]);
    LogoutLeavesLoggedOut(s1);
  }

  /** A new story keeps every author a known user. */
  lemma PostKeepsAuthorsKnown(s: SessionBag, body: Option<Fields>, users: map<nat, string>,
                              stories: map<nat, Story>, today: int, newId: nat)
    requires newId !in stories && AuthorsKnown(stories, users)
    ensures AuthorsKnown(PostStory(s, body, users, stories, today, newId).stories, users)
  {
  }

  /** The author lookup comes before the field checks: with an unknown
      username even a story with empty fields ends in an uncaught error. */
  lemma AuthorLookupPrecedesValidation(s: SessionBag, body: Fields, users: map<nat, string>,
                                       stories: map<nat, Story>, today: int, newId: nat)
    requires newId !in stories && IsLoggedIn(s) && HasStoryFields(body)
    requires USERNAME_KEY in s && s[USERNAME_KEY] !in users.Values
    ensures PostStory(s, Some(body), users, stories, today, newId).response == Error
  {
  }

  /** Two users with the session's username make the lookup ambiguous, and the
      post ends in an uncaught error however valid the story is. */
  lemma SharedUsernameIsError(s: SessionBag, body: Fields, users: map<nat, string>,
                              stories: map<nat, Story>, today: int, newId: nat, a: nat, b: nat)
    requires newId !in stories && IsLoggedIn(s) && HasStoryFields(body)
    requires USERNAME_KEY in s && a in users && b in users && a != b
    requires users[a] == s[USERNAME_KEY] && users[b] == s[USERNAME_KEY]
    ensures PostStory(s, Some(body), users, stories, today, newId).response == Error
  {
  }

  // ---------------------------------------------------------------------------
  // Deleting a story

  /** The delete_story view: the verb is checked first, then the login, then
      that the story exists; the story's author is never consulted. */
  function DeleteStory(verb: Verb, s: SessionBag, stories: map<nat, Story>, id: nat): (r: StoryStep)
    ensures r.response.Message?
    ensures r.response.status == STATUS_METHOD_NOT_ALLOWED <==> verb != Delete
    ensures r.response.status == STATUS_METHOD_NOT_ALLOWED <==> MethodName(verb) != "DELETE"
    ensures r.response.status == STATUS_UNAUTHORIZED <==> verb == Delete && !IsLoggedIn(s)
    ensures r.response.status == STATUS_NOT_FOUND <==> verb == Delete && IsLoggedIn(s) && id !in stories
    ensures r.response.status == STATUS_OK <==> verb == Delete && IsLoggedIn(s) && id in stories
    ensures r.response.status != STATUS_OK ==> r.stories == stories
    ensures r.response.status == STATUS_OK ==>
              && r.stories.Keys == stories.Keys - {id}
              && |r.stories| == |stories| - 1
              && forall k :: k in r.stories ==> r.stories[k] == stories[k]
  {
    if verb != Delete then
      StoryStep(Message(STATUS_METHOD_NOT_ALLOWED), stories)
    else if !IsLoggedIn(s) then
      StoryStep(Message(STATUS_UNAUTHORIZED), stories)
    else if id !in stories then
      StoryStep(Message(STATUS_NOT_FOUND), stories)
    else
      StoryStep(Message(STATUS_OK), stories - {id})
  }

  /** Deleting the same story twice answers 200, then 404. */
  lemma DeleteTwice(s: SessionBag, stories: map<nat, Story>, id: nat)
    requires IsLoggedIn(s) && id in stories
    ensures DeleteStory(Delete, s, stories, id).response == Message(STATUS_OK)
    ensures DeleteStory(Delete, s, DeleteStory(Delete, s, stories, id).stories, id).response
            == Message(STATUS_NOT_FOUND)
  {
  }

  /** The outcome depends only on the verb, the login flag and which ids
      exist: not on who is logged in nor on who wrote the story. */
  lemma DeleteIgnoresOwnership(verb: Verb, s1: SessionBag, s2: SessionBag,
                               m1: map<nat, Story>, m2: map<nat, Story>, id: nat)
    requires IsLoggedIn(s1) == IsLoggedIn(s2) && m1.Keys == m2.Keys
    ensures DeleteStory(verb, s1, m1, id).response == DeleteStory(verb, s2, m2, id).response
  {
  }

  lemma DeleteKeepsAuthorsKnown(verb: Verb, s: SessionBag, stories: map<nat, Story>, id: nat,
                                users: map<nat, string>)
    requires AuthorsKnown(stories, users)
    ensures AuthorsKnown(DeleteStory(verb, s, stories, id).stories, users)
  {
  }

  // ---------------------------------------------------------------------------
  // Listing stories

  datatype DateFilter = AnyDate | Since(from: int)

  /** The three filters of a listing request. */
  datatype Filter = Filter(category: string, region: string, date: DateFilter)

  datatype QueryRead = MissingParam | BadDate | Read(filter: Filter)

  /** Reads the filter out of the query; parseDate stands for the datastore's
      parsing of a date string. */
  function ReadFilter(query: Fields, parseDate: string -> Option<int>): (r: QueryRead)
    ensures r.MissingParam? <==>
              !(STORY_CAT_PARAM in query && STORY_REGION_PARAM in query && STORY_DATE_PARAM in query)
    ensures r.BadDate? <==>
              && STORY_CAT_PARAM in query && STORY_REGION_PARAM in query && STORY_DATE_PARAM in query
              && query[STORY_DATE_PARAM] != WILDCARD && parseDate(query[STORY_DATE_PARAM]).None?
    ensures r.Read? ==>
              && r.filter.category == query[STORY_CAT_PARAM]
              && r.filter.region == query[STORY_REGION_PARAM]
              && (r.filter.date == AnyDate <==> query[STORY_DATE_PARAM] == WILDCARD)
              && (r.filter.date.Since? ==> parseDate(query[STORY_DATE_PARAM]) == Some(r.filter.date.from))
  {
    if !(STORY_CAT_PARAM in query && STORY_REGION_PARAM in query && STORY_DATE_PARAM in query) then
      MissingParam
    else
      var category, region, storyDate := query[STORY_CAT_PARAM], query[STORY_REGION_PARAM], query[STORY_DATE_PARAM];
      if storyDate == WILDCARD then
        Read(Filter(category, region, AnyDate))
      else
        match parseDate(storyDate)
        case None => BadDate
        case Some(from) => Read(Filter(category, region, Since(from)))
  }

  /** The reference meaning of a filter: every field is the wildcard or
      matches exactly, and a date bound keeps the dates from it up to today. */
  predicate Selected(st: Story, f: Filter, today: int) {
    && (f.category == WILDCARD || st.category == f.category)
    && (f.region == WILDCARD || st.region == f.region)
    && (match f.date
        case AnyDate => true
        case Since(from) => from <= st.date <= today)
  }

  // The three queryset filters the view chains.

  function WithCategory(m: map<nat, Story>, category: string): (r: map<nat, Story>)
    ensures forall id :: id in r <==> id in m && m[id].category == category
    ensures forall id :: id in r ==> r[id] == m[id]
  {
    map id | id in m && m[id].category == category :: m[id]
  }

  function WithRegion(m: map<nat, Story>, region: string): (r: map<nat, Story>)
    ensures forall id :: id in r <==> id in m && m[id].region == region
    ensures forall id :: id in r ==> r[id] == m[id]
  {
    map id | id in m && m[id].region == region :: m[id]
  }

  function WithDateIn(m: map<nat, Story>, from: int, today: int): (r: map<nat, Story>)
    ensures forall id :: id in r <==> id in m && from <= m[id].date <= today
    ensures forall id :: id in r ==> r[id] == m[id]
  {
    map id | id in m && from <= m[id].date <= today :: m[id]
  }

  /** The queryset the view builds, filter after filter. */
  function Filtered(stories: map<nat, Story>, f: Filter, today: int): (r: map<nat, Story>)
    ensures forall id :: id in r <==> id in stories && Selected(stories[id], f, today)
    ensures forall id :: id in r ==> r[id] == stories[id]
  {
    var byCategory := if f.category == WILDCARD then stories else WithCategory(stories, f.category);
    var byRegion := if f.region == WILDCARD then byCategory else WithRegion(byCategory, f.region);
    match f.date
    case AnyDate => byRegion
    case Since(from) => WithDateIn(byRegion, from, today)
  }

  /** How one story appears in a listing. */
  function Render(id: nat, st: Story, users: map<nat, string>): (e: Entry)
    requires st.authorId in users
    ensures AllDigits(e.key) && DecimalValue(e.key) == id
    ensures && e.headline == st.headline && e.storyCat == st.category && e.storyRegion == st.region
            && e.storyDate == st.date && e.storyDetails == st.details
    ensures e.author == users[st.authorId]
  {
    ValueOfString(id);
    Entry(DecimalString(id), st.headline, st.category, st.region, users[st.authorId], st.date, st.details)
  }

  /** entries lists the stories of sel in some order: one entry per story, each
      keyed by its id and rendered from it. */
  ghost predicate Lists(entries: seq<Entry>, sel: map<nat, Story>, users: map<nat, string>)
    requires AuthorsKnown(sel, users)
  {
    && |entries| == |sel|
    && (forall i :: 0 <= i < |entries| ==>
          && AllDigits(entries[i].key)
          && DecimalValue(entries[i].key) in sel
          && entries[i] == Render(DecimalValue(entries[i].key), sel[DecimalValue(entries[i].key)], users))
    && (forall i, j :: 0 <= i < j < |entries| ==> entries[i].key != entries[j].key)
    && (forall id :: id in sel ==> exists i :: 0 <= i < |entries| && entries[i].key == DecimalString(id))
  }

  /** The answer of the get_story view: 400 when a parameter is missing, an
      uncaught error for a date the datastore cannot parse, 404 when nothing
      is selected, else a listing of exactly the selected stories. */
  ghost predicate AnswersGet(query: Fields, parseDate: string -> Option<int>, stories: map<nat, Story>,
                             users: map<nat, string>, today: int, r: Response)
    requires AuthorsKnown(stories, users)
  {
    match ReadFilter(query, parseDate)
    case MissingParam => r == Message(STATUS_BAD_REQUEST)
    case BadDate => r == Error
    case Read(f) =>
      var sel := Filtered(stories, f, today);
      if sel == map[] then r == Message(STATUS_NOT_FOUND)
      else r.StoryList? && Lists(r.stories, sel, users)
  }

  /** All listings of one selection hold the same entries: only their order
      is left open. */
  lemma {:induction false} ListingsAgree(e1: seq<Entry>, e2: seq<Entry>, sel: map<nat, Story>,
                                         users: map<nat, string>)
    requires AuthorsKnown(sel, users)
    requires Lists(e1, sel, users) && Lists(e2, sel, users)
    ensures forall e :: e in e1 <==> e in e2
  {
    forall e | e in e1 ensures e in e2 {
      ListedInOther(e, e1, e2, sel, users);
    }
    forall e | e in e2 ensures e in e1 {
      ListedInOther(e, e2, e1, sel, users);
    }
  }

  lemma ListedInOther(e: Entry, e1: seq<Entry>, e2: seq<Entry>, sel: map<nat, Story>,
                      users: map<nat, string>)
    requires AuthorsKnown(sel, users)
    requires Lists(e1, sel, users) && Lists(e2, sel, users)
    requires e in e1
    ensures e in e2
  {
    var i :| 0 <= i < |e1| && e1[i] == e;
    var id := DecimalValue(e.key);
    assert id in sel && e == Render(id, sel[id], users);
    var j :| 0 <= j < |e2| && e2[j].key == DecimalString(id);
    ValueOfString(id);
    assert DecimalValue(e2[j].key) == id;
    assert e2[j] == e;
  }

  /** A sequence of entries rendered one by one from distinct selected ids,
      covering every selected id, is a listing of the selection. */
  lemma ListsFromIds(entries: seq<Entry>, ids: seq<nat>, sel: map<nat, Story>, users: map<nat, string>)
    requires AuthorsKnown(sel, users)
    requires |ids| == |entries| == |sel|
    requires forall i :: 0 <= i < |ids| ==> ids[i] in sel && entries[i] == Render(ids[i], sel[ids[i]], users)
    requires forall i, j :: 0 <= i < j < |ids| ==> ids[i] != ids[j]
    requires forall id :: id in sel ==> id in ids
    ensures Lists(entries, sel, users)
  {
    forall i | 0 <= i < |entries|
      ensures AllDigits(entries[i].key) && DecimalValue(entries[i].key) == ids[i]
    {
      ValueOfString(ids[i]);
    }
    forall i, j | 0 <= i < j < |entries|
      ensures entries[i].key != entries[j].key
    {
      DecimalStringInjective(ids[i], ids[j]);
    }
    forall id | id in sel
      ensures exists i :: 0 <= i < |entries| && entries[i].key == DecimalString(id)
    {
      var i :| 0 <= i < |ids| && ids[i] == id;
      assert entries[i].key == DecimalString(id);
    }
  }

  /** A listing is empty exactly when nothing is selected. */
  lemma ListsEmpty(entries: seq<Entry>, sel: map<nat, Story>, users: map<nat, string>)
    requires AuthorsKnown(sel, users) && Lists(entries, sel, users)
    ensures entries == [] <==> sel == map[]
  {
    if entries == [] {
      assert |sel.Keys| == 0;
    }
  }

  /** With every filter at the wildcard, a listing selects the whole table. */
  lemma WildcardSelectsAll(stories: map<nat, Story>, today: int)
    ensures Filtered(stories, Filter(WILDCARD, WILDCARD, AnyDate), today) == stories
  {
  }

  /** A lower date bound after today selects nothing. */
  lemma FutureDateSelectsNothing(stories: map<nat, Story>, category: string, region: string,
                                 from: int, today: int)
    requires today < from
    ensures Filtered(stories, Filter(category, region, Since(from)), today) == map[]
  {
  }

  /** A story posted today is selected by its own category and region, with
      any date bound up to today and with the wildcards. */
  lemma PostedStoryIsSelected(s: SessionBag, body: Fields, users: map<nat, string>,
                              stories: map<nat, Story>, today: int, newId: nat, from: int)
    requires newId !in stories && from <= today
    requires PostStory(s, Some(body), users, stories, today, newId).response == Message(STATUS_OK)
    ensures
      var after := PostStory(s, Some(body), users, stories, today, newId).stories;
      && newId in Filtered(after, Filter(body[CATEGORY_KEY], body[REGION_KEY], Since(from)), today)
      && newId in Filtered(after, Filter(WILDCARD, WILDCARD, AnyDate), today)
  {
  }

  /** So a story just posted appears, rendered from its own fields, in every
      listing of its category and region with a date bound up to today. */
  lemma {:induction false} PostedStoryIsListed(s: SessionBag, body: Fields, users: map<nat, string>,
                                               stories: map<nat, Story>, today: int, newId: nat,
                                               from: int, entries: seq<Entry>)
    requires newId !in stories && AuthorsKnown(stories, users)
    requires PostStory(s, Some(body), users, stories, today, newId).response == Message(STATUS_OK)
    requires from <= today
    requires
      var after := PostStory(s, Some(body), users, stories, today, newId).stories;
      AuthorsKnown(after, users) &&
      Lists(entries, Filtered(after, Filter(body[CATEGORY_KEY], body[REGION_KEY], Since(from)), today), users)
    ensures exists i :: 0 <= i < |entries| && entries[i].key == DecimalString(newId)
    ensures forall i :: 0 <= i < |entries| && entries[i].key == DecimalString(newId) ==>
              && entries[i].headline == body[HEADLINE_KEY]
              && entries[i].storyDetails == body[DETAILS_KEY]
              && entries[i].storyDate == today
              && entries[i].author == s[USERNAME_KEY]
  {
    var after := PostStory(s, Some(body), users, stories, today, newId).stories;
    PostedStoryIsSelected(s, body, users, stories, today, newId, from);
    forall i | 0 <= i < |entries| && entries[i].key == DecimalString(newId)
      ensures entries[i] == Render(newId, after[newId], users)
    {
      ValueOfString(newId);
    }
  }
}
