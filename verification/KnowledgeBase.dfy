/** The knowledge base: articles with cached vote counters and a version history, and the votes behind the counters. */
module KnowledgeBase {
  import opened Text
  import opened Slugs

  type Id = nat
  type User = string

  datatype Status = Draft | Published | Archived

  datatype Version = Version(number: nat, title: string, content: string)

  datatype Article = Article(
    org: string, title: string, slug: string, content: string, status: Status, isPublic: bool, publishedAt: Option<int>,
    helpfulCount: int, notHelpfulCount: int, likes: int, versions: seq<Version>, comments: seq<string>)

  datatype Vote = Vote(isHelpful: bool, comment: Option<string>)

  /** The tables. Row ids are handed out in order and never reused. */
  datatype State = State(articles: map<Id, Article>, votes: map<(Id, User), Vote>, next: Id)

  datatype Outcome =
    | Done
    | Created(id: Id)
    | NotFound
    | EmptyTitleOrContent
    | SlugConflict
    | Voted(isHelpful: bool, helpfulCount: int, notHelpfulCount: int)

  datatype NewArticle = NewArticle(title: string, content: string, slug: string,
                                   status: Option<Status>, isPublic: Option<bool>, comments: seq<string>)

  datatype Changes = Changes(title: Option<string>, slug: string, content: Option<string>, status: Option<Status>,
                             isPublic: Option<bool>, comments: Option<seq<string>>)

  /** One service call; `now` is the clock it reads. */
  datatype Op =
    | Create(org: string, new_: NewArticle, now: int)
    | Update(org: string, id: Id, changes: Changes, now: int)
    | Publish(org: string, id: Id, now: int)
    | Archive(org: string, id: Id)
    | Restore(org: string, id: Id)
    | Duplicate(org: string, id: Id)
    | Delete(org: string, id: Id)
    | CastVote(org: string, id: Id, user: User, isHelpful: bool)
    | AddComment(org: string, id: Id, text: string)

  const EMPTY := State(map[], map[], 0)

  // ----- Single calls -----

  /** `findArticle` with manage rights, and without them. */
  predicate Manageable(s: State, org: string, id: Id) { id in s.articles && s.articles[id].org == org }

  predicate Visible(s: State, org: string, id: Id) {
    Manageable(s, org, id) && s.articles[id].status == Published && s.articles[id].isPublic
  }

  /** The slugs of an organization, but for one article. */
  function Taken(s: State, org: string, except_: Option<Id>): set<string> {
    set id | id in s.articles && s.articles[id].org == org && Some(id) != except_ :: s.articles[id].slug
  }

  function Put(s: State, id: Id, a: Article): State { s.(articles := s.articles[id := a]) }

  function Insert(s: State, a: Article): State { State(s.articles[s.next := a], s.votes, s.next + 1) }

  function CreateArticle(slugify: string -> string, s: State, org: string, n: NewArticle, now: int): (State, Outcome) {
    if Trim(n.title) == "" || Trim(n.content) == "" then (s, EmptyTitleOrContent)
    else
      var base := if Trim(n.slug) != "" then Trim(n.slug) else slugify(n.title);
      var slug := FreeSlug(ArticleBase(base), Taken(s, org, None), 0);
      var status := if n.status.Some? then n.status.value else Draft;
      (Insert(s, Article(
           org, Trim(n.title), slug, n.content, status, if n.isPublic.Some? then n.isPublic.value else true,
           if n.status == Some(Published) then Some(now) else None,
           0, 0, 0, [Version(1, Trim(n.title), n.content)], n.comments)),
       Created(s.next))
  }

  function UpdatedTitle(a: Article, c: Changes): string { if c.title.Some? then Trim(c.title.value) else a.title }

  /** An explicit slug is taken as it is; a new title asks for a free slug; otherwise the slug stays. */
  function UpdatedSlug(slugify: string -> string, s: State, id: Id, a: Article, c: Changes): string {
    if Trim(c.slug) != "" then Trim(c.slug)
    else if c.title.Some? && c.title.value != "" then
      FreeSlug(ArticleBase(slugify(UpdatedTitle(a, c))), Taken(s, a.org, Some(id)), 0)
    else a.slug
  }

  function UpdatedArticle(a: Article, slug: string, c: Changes, now: int): Article {
    a.(title := UpdatedTitle(a, c),
       slug := slug,
       content := if c.content.Some? then c.content.value else a.content,
       status := if c.status.Some? then c.status.value else a.status,
       isPublic := if c.isPublic.Some? then c.isPublic.value else a.isPublic,
       publishedAt := if c.status == Some(Published) && a.publishedAt == None then Some(now) else a.publishedAt,
       versions := a.versions + [Version(|a.versions| + 1, a.title, a.content)],
       comments := if c.comments.Some? then c.comments.value else a.comments)
  }

  function UpdateArticle(slugify: string -> string, s: State, org: string, id: Id, c: Changes, now: int)
    : (State, Outcome)
  {
    if !Manageable(s, org, id) then (s, NotFound)
    else
      var a := s.articles[id];
      var slug := UpdatedSlug(slugify, s, id, a, c);
      if slug in Taken(s, org, Some(id)) then (s, SlugConflict)
      else (Put(s, id, UpdatedArticle(a, slug, c, now)), Done)
  }

  function PublishArticle(s: State, org: string, id: Id, now: int): (State, Outcome) {
    if !Manageable(s, org, id) then (s, NotFound)
    else
      var a := s.articles[id];
      var publishedAt := if a.publishedAt.Some? then a.publishedAt else Some(now);
      (Put(s, id, a.(status := Published, publishedAt := publishedAt)), Done)
  }

  function ArchiveArticle(s: State, org: string, id: Id): (State, Outcome) {
    if !Manageable(s, org, id) then (s, NotFound) else (Put(s, id, s.articles[id].(status := Archived)), Done)
  }

  function RestoreArticle(s: State, org: string, id: Id): (State, Outcome) {
    if !Manageable(s, org, id) then (s, NotFound)
    else
      var a := s.articles[id];
      (Put(s, id, a.(status := if a.publishedAt.Some? then Published else Draft)), Done)
  }

  function DuplicateArticle(s: State, org: string, id: Id): (State, Outcome) {
    if !Manageable(s, org, id) then (s, NotFound)
    else
      var a := s.articles[id];
      var slug := FreeSlug(ArticleBase(a.slug + "-copy"), Taken(s, org, None), 0);
      (Insert(s, Article(org, a.title + " Copy", slug, a.content, Draft, a.isPublic, None, 0, 0, 0, [], a.comments)),
       Created(s.next))
  }

  /** The votes of a deleted article go with it. */
  function DeleteArticle(s: State, org: string, id: Id): (State, Outcome) {
    if !Manageable(s, org, id) then (s, NotFound)
    else (State(s.articles - {id}, map k | k in s.votes && k.0 != id :: s.votes[k], s.next), Done)
  }

  function HelpfulDelta(existing: Option<Vote>, isHelpful: bool): int {
    (if existing.Some? && existing.value.isHelpful then -1 else 0) + if isHelpful then 1 else 0
  }

  function NotHelpfulDelta(existing: Option<Vote>, isHelpful: bool): int {
    (if existing.Some? && !existing.value.isHelpful then -1 else 0) + if isHelpful then 0 else 1
  }

  function FindVote(s: State, id: Id, user: User): Option<Vote> {
    if (id, user) in s.votes then Some(s.votes[(id, user)]) else None
  }

  function AtLeastZero(n: int): int { if n < 0 then 0 else n }

  function VoteArticle(s: State, org: string, id: Id, user: User, isHelpful: bool): (State, Outcome) {
    if !Visible(s, org, id) then (s, NotFound)
    else
      var a, existing := s.articles[id], FindVote(s, id, user);
      if existing.Some? && existing.value.isHelpful == isHelpful && existing.value.comment == None then
        (s, Voted(isHelpful, a.helpfulCount, a.notHelpfulCount))
      else
        var h, n := HelpfulDelta(existing, isHelpful), NotHelpfulDelta(existing, isHelpful);
        var vote := Vote(isHelpful, if existing.Some? then existing.value.comment else None);
        var counted := a.(
          helpfulCount := a.helpfulCount + h, notHelpfulCount := a.notHelpfulCount + n, likes := a.likes + h);
        (State(s.articles[id := counted], s.votes[(id, user) := vote], s.next),
         Voted(isHelpful, AtLeastZero(a.helpfulCount + h), AtLeastZero(a.notHelpfulCount + n)))
  }

  function CommentArticle(s: State, org: string, id: Id, text: string): (State, Outcome) {
    if !Visible(s, org, id) then (s, NotFound)
    else
      var a := s.articles[id];
      (Put(s, id, a.(comments := a.comments + [Trim(text)])), Done)
  }

  function Step(slugify: string -> string, s: State, op: Op): (State, Outcome) {
    match op
    case Create(org, n, now) => CreateArticle(slugify, s, org, n, now)
    case Update(org, id, c, now) => UpdateArticle(slugify, s, org, id, c, now)
    case Publish(org, id, now) => PublishArticle(s, org, id, now)
    case Archive(org, id) => ArchiveArticle(s, org, id)
    case Restore(org, id) => RestoreArticle(s, org, id)
    case Duplicate(org, id) => DuplicateArticle(s, org, id)
    case Delete(org, id) => DeleteArticle(s, org, id)
    case CastVote(org, id, user, isHelpful) => VoteArticle(s, org, id, user, isHelpful)
    case AddComment(org, id, text) => CommentArticle(s, org, id, text)
  }

  function Run(slugify: string -> string, s: State, ops: seq<Op>): State {
    if ops == [] then s else Step(slugify, Run(slugify, s, ops[..|ops|-1]), ops[|ops|-1]).0
  }

  // ----- What each call does -----

  /** No row but article `id` changes. */
  ghost predicate OnlyArticle(s: State, t: State, id: Id) {
    && t.next == s.next && t.votes == s.votes && t.articles.Keys == s.articles.Keys
    && forall k :: k in s.articles && k != id ==> t.articles[k] == s.articles[k]
  }

  /** One article is added, under the next id. */
  ghost predicate OneMoreArticle(s: State, t: State) {
    && t.next == s.next + 1 && t.votes == s.votes && t.articles.Keys == s.articles.Keys + {s.next}
    && forall k :: k in s.articles && k != s.next ==> t.articles[k] == s.articles[k]
  }

  ghost predicate IsBlank(text: string) { forall c <- text :: IsSpace(c) }

  /** `r` is the text without the white space at its ends. */
  ghost predicate IsTrimmed(r: string, text: string) {
    exists before, after ::
      && text == before + r + after && IsBlank(before) && IsBlank(after)
      && (r != "" ==> !IsSpace(r[0]) && !IsSpace(r[|r|-1]))
  }

  /** Another article of the organization has the slug. */
  ghost predicate InUse(s: State, org: string, except_: Option<Id>, slug: string) {
    exists k :: k in s.articles && s.articles[k].org == org && Some(k) != except_ && s.articles[k].slug == slug
  }

  /** The first slug of base, base-1, base-2 and so on that no other article of the organization has, with "article" in
      place of an empty base. */
  ghost predicate IsFirstFree(slug: string, base: string, s: State, org: string, except_: Option<Id>) {
    exists k :: IsFreeVariant(slug, base, k, s, org, except_)
  }

  ghost predicate IsFreeVariant(slug: string, base: string, k: nat, s: State, org: string, except_: Option<Id>) {
    var start := if base == "" then "article" else base;
    && slug == Variant(start, k) && !InUse(s, org, except_, slug)
    && forall j: nat :: j < k ==> InUse(s, org, except_, Variant(start, j))
  }

  function Variant(base: string, k: nat): string { if k == 0 then base else base + "-" + Decimal(k) }

  lemma TrimmedAtStart(text: string)
    ensures exists before :: text == before + DropWhile(text, IsSpace) && IsBlank(before)
  {
    hide IsSpace;
    if text != "" && IsSpace(text[0]) {
      TrimmedAtStart(text[1..]);
      var before :| text[1..] == before + DropWhile(text[1..], IsSpace) && IsBlank(before);
      assert text == ([text[0]] + before) + DropWhile(text, IsSpace);
      assert IsBlank([text[0]] + before);
    } else {
      assert text == "" + DropWhile(text, IsSpace) && IsBlank("");
    }
  }

  lemma TrimmedAtEnd(text: string)
    ensures exists after :: text == DropWhileEnd(text, IsSpace) + after && IsBlank(after)
  {
    hide IsSpace;
    if text != "" && IsSpace(text[|text|-1]) {
      var front, last := text[..|text|-1], text[|text|-1];
      TrimmedAtEnd(front);
      var after :| front == DropWhileEnd(front, IsSpace) + after && IsBlank(after);
      assert text == DropWhileEnd(text, IsSpace) + (after + [last]);
      assert IsBlank(after + [last]);
    } else {
      assert text == DropWhileEnd(text, IsSpace) + "" && IsBlank("");
    }
  }

  lemma TrimIsTrimmed(text: string)
    ensures IsTrimmed(Trim(text), text)
    ensures Trim(text) == "" <==> IsBlank(text)
  {
    hide IsSpace, DropWhile, DropWhileEnd;
    var left := DropWhile(text, IsSpace);
    TrimmedAtStart(text);
    var before :| text == before + left && IsBlank(before);
    TrimmedAtEnd(left);
    var after :| left == DropWhileEnd(left, IsSpace) + after && IsBlank(after);
    var r := Trim(text);
    assert text == before + r + after;
    if r != "" {
      assert r[0] == left[0];
      assert r[0] in text;
    } else {
      assert text == before + after;
    }
  }

  lemma TakenIsInUse(s: State, org: string, except_: Option<Id>, slug: string)
    ensures slug in Taken(s, org, except_) <==> InUse(s, org, except_, slug)
  {
  }

  lemma FreeIsFirst(s: State, org: string, except_: Option<Id>, base: string)
    ensures IsFirstFree(FreeSlug(ArticleBase(base), Taken(s, org, except_), 0), base, s, org, except_)
  {
    hide FreeSlug, Taken, InUse;
    var taken := Taken(s, org, except_);
    var from := ArticleBase(base);
    var k := FreeSlugIsFirst(from, taken, 0);
    TakenIsInUse(s, org, except_, Candidate(from, k));
    forall j: nat | j < k
      ensures InUse(s, org, except_, Variant(from, j))
    {
      assert Candidate(from, j) in taken;
      TakenIsInUse(s, org, except_, Candidate(from, j));
      assert Candidate(from, j) == Variant(from, j);
    }
    assert IsFreeVariant(Candidate(from, k), base, k, s, org, except_);
  }

  /** A blank title or content is refused. Anything else becomes an article with the given fields, of which the missing
      ones get their defaults, its text as version 1, no votes, and the first free slug of the given one or the
      title. */
  lemma CreateStores(slugify: string -> string, s: State, org: string, n: NewArticle, now: int)
    ensures var (t, r) := CreateArticle(slugify, s, org, n, now);
            if IsBlank(n.title) || IsBlank(n.content) then t == s && r == EmptyTitleOrContent
            else
              && r == Created(s.next) && OneMoreArticle(s, t)
              && var a := t.articles[s.next];
              && a.org == org && IsTrimmed(a.title, n.title) && a.content == n.content
              && a.status == (if n.status.Some? then n.status.value else Draft)
              && a.isPublic == (if n.isPublic.Some? then n.isPublic.value else true)
              && a.publishedAt == (if n.status == Some(Published) then Some(now) else None)
              && a.helpfulCount == a.notHelpfulCount == a.likes == 0 && a.comments == n.comments
              && a.versions == [Version(1, a.title, n.content)]
              && if IsBlank(n.slug) then IsFirstFree(a.slug, slugify(n.title), s, org, None)
                 else exists base :: IsTrimmed(base, n.slug) && IsFirstFree(a.slug, base, s, org, None)
  {
    hide Trim, FreeSlug, ArticleBase, Taken, IsBlank, IsTrimmed, IsFirstFree;
    TrimIsTrimmed(n.title);
    TrimIsTrimmed(n.content);
    TrimIsTrimmed(n.slug);
    FreeIsFirst(s, org, None, if Trim(n.slug) != "" then Trim(n.slug) else slugify(n.title));
  }

  /** Every given field is stored and the others stay; the text before becomes one more version, and the publication
      date is set with the first publication. */
  ghost predicate IsUpdated(slugify: string -> string, s: State, t: State, org: string, id: Id, c: Changes, now: int)
    requires id in s.articles && id in t.articles
  {
    var a, b := s.articles[id], t.articles[id];
    && b.org == a.org == org
    && (if c.title.Some? then IsTrimmed(b.title, c.title.value) else b.title == a.title)
    && b.content == (if c.content.Some? then c.content.value else a.content)
    && b.status == (if c.status.Some? then c.status.value else a.status)
    && b.isPublic == (if c.isPublic.Some? then c.isPublic.value else a.isPublic)
    && b.comments == (if c.comments.Some? then c.comments.value else a.comments)
    && b.publishedAt == (if c.status == Some(Published) && a.publishedAt.None? then Some(now) else a.publishedAt)
    && b.helpfulCount == a.helpfulCount && b.notHelpfulCount == a.notHelpfulCount && b.likes == a.likes
    && b.versions == a.versions + [Version(|a.versions| + 1, a.title, a.content)]
    && !InUse(s, org, Some(id), b.slug)
    && if !IsBlank(c.slug) then IsTrimmed(b.slug, c.slug)
       else if c.title.Some? && c.title.value != "" then IsFirstFree(b.slug, slugify(b.title), s, org, Some(id))
       else b.slug == a.slug
  }

  /** An update finds articles of the own organization only. It is stored, or refused because another article has the
      slug; no other row changes. */
  lemma UpdateStores(slugify: string -> string, s: State, org: string, id: Id, c: Changes, now: int)
    ensures var (t, r) := UpdateArticle(slugify, s, org, id, c, now);
            && (r == NotFound <==> id !in s.articles || s.articles[id].org != org)
            && (r == Done || (t == s && r in {NotFound, SlugConflict}))
            && (r == Done ==> OnlyArticle(s, t, id) && IsUpdated(slugify, s, t, org, id, c, now))
  {
    hide Trim, FreeSlug, ArticleBase, Taken, IsBlank, IsTrimmed, IsFirstFree, InUse;
    if id in s.articles && s.articles[id].org == org {
      var a := s.articles[id];
      TrimIsTrimmed(if c.title.Some? then c.title.value else "");
      TrimIsTrimmed(c.slug);
      FreeIsFirst(s, org, Some(id), slugify(UpdatedTitle(a, c)));
      TakenIsInUse(s, org, Some(id), UpdatedSlug(slugify, s, id, a, c));
    }
  }

  /** Publishing, archiving and restoring set the status, and publishing the date unless there is one. */
  lemma StatusStores(s: State, org: string, id: Id, now: int)
    ensures if id in s.articles && s.articles[id].org == org then
              var a := s.articles[id];
              var first := if a.publishedAt.Some? then a.publishedAt.value else now;
              var restored := if a.publishedAt.Some? then Published else Draft;
              && PublishArticle(s, org, id, now)
                 == (s.(articles := s.articles[id := a.(status := Published, publishedAt := Some(first))]), Done)
              && ArchiveArticle(s, org, id) == (s.(articles := s.articles[id := a.(status := Archived)]), Done)
              && RestoreArticle(s, org, id) == (s.(articles := s.articles[id := a.(status := restored)]), Done)
            else
              && PublishArticle(s, org, id, now) == (s, NotFound) == ArchiveArticle(s, org, id)
              && RestoreArticle(s, org, id) == (s, NotFound)
  {
  }

  /** A copy is a draft with the title, content, visibility and comments of the article, no votes and no history. */
  lemma DuplicateStores(s: State, org: string, id: Id)
    ensures var (t, r) := DuplicateArticle(s, org, id);
            if id !in s.articles || s.articles[id].org != org then t == s && r == NotFound
            else
              && r == Created(s.next) && OneMoreArticle(s, t)
              && var a, b := s.articles[id], t.articles[s.next];
              && b.org == org && b.title == a.title + " Copy" && b.content == a.content && b.comments == a.comments
              && b.status == Draft && b.isPublic == a.isPublic && b.publishedAt == None && b.versions == []
              && b.helpfulCount == b.notHelpfulCount == b.likes == 0
              && IsFirstFree(b.slug, a.slug + "-copy", s, org, None)
  {
    hide FreeSlug, ArticleBase, Taken, IsFirstFree;
    if id in s.articles { FreeIsFirst(s, org, None, s.articles[id].slug + "-copy"); }
  }

  /** Deleting takes the article and its votes, and nothing else. */
  lemma DeleteRemoves(s: State, org: string, id: Id)
    ensures var (t, r) := DeleteArticle(s, org, id);
            if id !in s.articles || s.articles[id].org != org then t == s && r == NotFound
            else
              && r == Done && t.next == s.next
              && t.articles.Keys == s.articles.Keys - {id}
              && (forall k :: k in t.articles ==> t.articles[k] == s.articles[k])
              && (forall k :: k in t.votes <==> k in s.votes && k.0 != id)
              && forall k :: k in t.votes ==> t.votes[k] == s.votes[k]
  {
  }

  /** Comments, like votes, are taken for published public articles only. */
  lemma CommentStores(s: State, org: string, id: Id, text: string)
    ensures var (t, r) := CommentArticle(s, org, id, text);
            if id !in s.articles || s.articles[id].org != org || s.articles[id].status != Published
               || !s.articles[id].isPublic then t == s && r == NotFound
            else
              && r == Done && OnlyArticle(s, t, id)
              && var a, b := s.articles[id], t.articles[id];
              && b.comments != [] && IsTrimmed(b.comments[|b.comments|-1], text)
              && b == a.(comments := a.comments + [b.comments[|b.comments|-1]])
  {
    hide Trim, IsTrimmed;
    TrimIsTrimmed(text);
  }

  /** A vote is stored as the user's only one for the article; the counters of the article move from the old vote to the
      new one, and nothing else changes. */
  lemma VoteStores(s: State, org: string, id: Id, user: User, isHelpful: bool)
    requires forall k :: k in s.votes ==> s.votes[k].comment == None
    ensures var (t, r) := VoteArticle(s, org, id, user, isHelpful);
            if id !in s.articles || s.articles[id].org != org || s.articles[id].status != Published
               || !s.articles[id].isPublic then t == s && r == NotFound
            else
              && r.Voted? && r.isHelpful == isHelpful
              && t.next == s.next && t.votes == s.votes[(id, user) := Vote(isHelpful, None)]
              && t.articles.Keys == s.articles.Keys
              && (forall k :: k in s.articles && k != id ==> t.articles[k] == s.articles[k])
              && var voted := (id, user) in s.votes; var old_ := voted && s.votes[(id, user)].isHelpful;
              var a, b := s.articles[id], t.articles[id];
              && b == a.(helpfulCount := b.helpfulCount, notHelpfulCount := b.notHelpfulCount, likes := b.likes)
              && b.helpfulCount - a.helpfulCount == b.likes - a.likes
                 == (if isHelpful then 1 else 0) - (if old_ then 1 else 0)
              && b.notHelpfulCount - a.notHelpfulCount
                 == (if isHelpful then 0 else 1) - (if voted && !old_ then 1 else 0)
  {
    if (id, user) in s.votes {
      assert s.votes[(id, user)].comment == None;
      if s.votes[(id, user)].isHelpful == isHelpful {
        assert s.votes[(id, user) := Vote(isHelpful, None)] == s.votes;
      }
    }
  }

  // ----- The service -----

  class Service {
    const slugify: string -> string
    var articles: map<Id, Article>
    var votes: map<(Id, User), Vote>
    var next: Id

    function Tables(): State
      reads this
    {
      State(articles, votes, next)
    }

    constructor (slugify: string -> string)
      ensures this.slugify == slugify && Tables() == EMPTY
    {
      this.slugify := slugify;
      articles, votes, next := map[], map[], 0;
    }

    method EnsureUniqueSlug(org: string, base: string, except_: Option<Id>) returns (slug: string)
      ensures slug == FreeSlug(ArticleBase(base), Taken(Tables(), org, except_), 0)
      ensures slug !in Taken(Tables(), org, except_)
    {
      slug := UniqueArticleSlug(base, Taken(Tables(), org, except_));
    }

    method Create(org: string, n: NewArticle, now: int) returns (r: Outcome)
      modifies this
      ensures (Tables(), r) == CreateArticle(slugify, old(Tables()), org, n, now)
    {
      if Trim(n.title) == "" || Trim(n.content) == "" { return EmptyTitleOrContent; }
      var slug := EnsureUniqueSlug(org, if Trim(n.slug) != "" then Trim(n.slug) else slugify(n.title), None);
      var status := if n.status.Some? then n.status.value else Draft;
      var isPublic := if n.isPublic.Some? then n.isPublic.value else true;
      var publishedAt := if n.status == Some(Published) then Some(now) else None;
      var versions := [Version(1, Trim(n.title), n.content)];
      r := Created(next);
      articles := articles[next :=
          Article(org, Trim(n.title), slug, n.content, status, isPublic, publishedAt, 0, 0, 0, versions, n.comments)];
      next := next + 1;
    }

    method ChooseSlug(id: Id, title: string, c: Changes) returns (slug: string)
      requires id in articles && title == UpdatedTitle(articles[id], c)
      ensures slug == UpdatedSlug(slugify, Tables(), id, articles[id], c)
    {
      hide FreeSlug, Trim, Taken, ArticleBase;
      slug := Trim(c.slug);
      if slug == "" {
        if c.title.Some? && c.title.value != "" {
          slug := EnsureUniqueSlug(articles[id].org, slugify(title), Some(id));
        } else {
          slug := articles[id].slug;
        }
      }
    }

    method Update(org: string, id: Id, c: Changes, now: int) returns (r: Outcome)
      modifies this
      ensures (Tables(), r) == UpdateArticle(slugify, old(Tables()), org, id, c, now)
    {
      hide UpdatedSlug, Trim, Taken;
      if id !in articles || articles[id].org != org { return NotFound; }
      var current := articles[id];
      var versions := current.versions + [Version(|current.versions| + 1, current.title, current.content)];
      var title := if c.title.Some? then Trim(c.title.value) else current.title;
      var slug := ChooseSlug(id, title, c);
      if slug in Taken(Tables(), org, Some(id)) { return SlugConflict; }
      var publishedAt := if c.status == Some(Published) && current.publishedAt == None then Some(now)
          else current.publishedAt;
      articles := articles[id := current.(
        title := title,
        slug := slug,
        content := if c.content.Some? then c.content.value else current.content,
        status := if c.status.Some? then c.status.value else current.status,
        isPublic := if c.isPublic.Some? then c.isPublic.value else current.isPublic,
        publishedAt := publishedAt,
        versions := versions,
        comments := if c.comments.Some? then c.comments.value else current.comments)];
      r := Done;
    }

    method Publish(org: string, id: Id, now: int) returns (r: Outcome)
      modifies this`articles
      ensures (Tables(), r) == PublishArticle(old(Tables()), org, id, now)
    {
      if id !in articles || articles[id].org != org { return NotFound; }
      var publishedAt := if articles[id].publishedAt.Some? then articles[id].publishedAt else Some(now);
      articles := articles[id := articles[id].(status := Published, publishedAt := publishedAt)];
      r := Done;
    }

    method Archive(org: string, id: Id) returns (r: Outcome)
      modifies this`articles
      ensures (Tables(), r) == ArchiveArticle(old(Tables()), org, id)
    {
      if id !in articles || articles[id].org != org { return NotFound; }
      articles := articles[id := articles[id].(status := Archived)];
      r := Done;
    }

    method Restore(org: string, id: Id) returns (r: Outcome)
      modifies this`articles
      ensures (Tables(), r) == RestoreArticle(old(Tables()), org, id)
    {
      if id !in articles || articles[id].org != org { return NotFound; }
      var status := if articles[id].publishedAt.Some? then Published else Draft;
      articles := articles[id := articles[id].(status := status)];
      r := Done;
    }

    method Duplicate(org: string, id: Id) returns (r: Outcome)
      modifies this
      ensures (Tables(), r) == DuplicateArticle(old(Tables()), org, id)
    {
      if id !in articles || articles[id].org != org { return NotFound; }
      var a := articles[id];
      var slug := EnsureUniqueSlug(org, a.slug + "-copy", None);
      r := Created(next);
      articles := articles[next :=
          Article(org, a.title + " Copy", slug, a.content, Draft, a.isPublic, None, 0, 0, 0, [], a.comments)];
      next := next + 1;
    }

    method Delete(org: string, id: Id) returns (r: Outcome)
      modifies this
      ensures (Tables(), r) == DeleteArticle(old(Tables()), org, id)
    {
      if id !in articles || articles[id].org != org { return NotFound; }
      articles := articles - {id};
      votes := map k | k in votes && k.0 != id :: votes[k];
      r := Done;
    }

    method VoteFor(org: string, id: Id, user: User, isHelpful: bool) returns (r: Outcome)
      modifies this
      ensures (Tables(), r) == VoteArticle(old(Tables()), org, id, user, isHelpful)
    {
      if !Visible(Tables(), org, id) { return NotFound; }
      var a := articles[id];
      var helpfulDelta, notHelpfulDelta := 0, 0;
      var comment: Option<string> := None;
      if (id, user) in votes {
        var existing := votes[(id, user)];
        comment := existing.comment;
        if existing.isHelpful { helpfulDelta := helpfulDelta - 1; } else { notHelpfulDelta := notHelpfulDelta - 1; }
        if existing.isHelpful == isHelpful && existing.comment == None {
          return Voted(existing.isHelpful, a.helpfulCount, a.notHelpfulCount);
        }
      }
      if isHelpful { helpfulDelta := helpfulDelta + 1; } else { notHelpfulDelta := notHelpfulDelta + 1; }
      votes := votes[(id, user) := Vote(isHelpful, comment)];
      articles := articles[id := a.(
        helpfulCount := a.helpfulCount + helpfulDelta,
        notHelpfulCount := a.notHelpfulCount + notHelpfulDelta,
        likes := if helpfulDelta != 0 then a.likes + helpfulDelta else a.likes)];
      r := Voted(isHelpful, AtLeastZero(a.helpfulCount + helpfulDelta),
          AtLeastZero(a.notHelpfulCount + notHelpfulDelta));
    }

    method Comment(org: string, id: Id, text: string) returns (r: Outcome)
      modifies this`articles
      ensures (Tables(), r) == CommentArticle(old(Tables()), org, id, text)
    {
      if !Visible(Tables(), org, id) { return NotFound; }
      articles := articles[id := articles[id].(comments := articles[id].comments + [Trim(text)])];
      r := Done;
    }
  }

  // ----- Invariants of every run -----

  /** The users whose stored vote on an article is the given one. */
  ghost function Voters(votes: map<(Id, User), Vote>, id: Id, isHelpful: bool): set<User> {
    set k | k in votes && k.0 == id && votes[k].isHelpful == isHelpful :: k.1
  }

  /** The cached counters are what counting the votes again would give. */
  ghost predicate Counted(s: State, id: Id)
    requires id in s.articles
  {
    var a := s.articles[id];
    && a.helpfulCount == |Voters(s.votes, id, true)| && a.notHelpfulCount == |Voters(s.votes, id, false)|
    && a.likes == a.helpfulCount
  }

  ghost predicate Numbered(a: Article) {
    forall i :: 0 <= i < |a.versions| ==> a.versions[i].number == i + 1
  }

  ghost predicate WellFormed(a: Article) {
    Numbered(a) && (a.status == Published ==> a.publishedAt.Some?)
  }

  ghost predicate UniqueSlugs(s: State) {
    forall i, j :: i in s.articles && j in s.articles && i != j && s.articles[i].org == s.articles[j].org ==>
                     s.articles[i].slug != s.articles[j].slug
  }

  ghost predicate Inv(s: State) {
    && (forall id :: id in s.articles ==> id < s.next && WellFormed(s.articles[id]) && Counted(s, id))
    && (forall k :: k in s.votes ==> k.0 in s.articles && s.votes[k].comment == None)
    && UniqueSlugs(s)
  }

  lemma PutKeepsInv(s: State, id: Id, a: Article)
    requires Inv(s) && id in s.articles && WellFormed(a)
    requires var b := s.articles[id];
             && a.org == b.org && a.likes == b.likes
             && a.helpfulCount == b.helpfulCount && a.notHelpfulCount == b.notHelpfulCount
    requires a.slug !in Taken(s, a.org, Some(id))
    ensures Inv(Put(s, id, a))
  {
    var t := Put(s, id, a);
    forall k | k in t.articles
      ensures Counted(t, k)
    {
      assert Counted(s, k);
    }
    forall i, j | i in t.articles && j in t.articles && i != j && t.articles[i].org == t.articles[j].org
      ensures t.articles[i].slug != t.articles[j].slug
    {
      if i == id { assert s.articles[j].slug in Taken(s, a.org, Some(id)); }
      if j == id { assert s.articles[i].slug in Taken(s, a.org, Some(id)); }
    }
  }

  lemma OwnSlugIsFree(s: State, id: Id)
    requires Inv(s) && id in s.articles
    ensures s.articles[id].slug !in Taken(s, s.articles[id].org, Some(id))
  {
  }

  lemma InsertKeepsInv(s: State, a: Article)
    requires Inv(s) && WellFormed(a) && a.helpfulCount == a.notHelpfulCount == a.likes == 0
    requires a.slug !in Taken(s, a.org, None)
    ensures Inv(Insert(s, a))
  {
    var t := Insert(s, a);
    forall k | k in t.articles
      ensures Counted(t, k)
    {
      if k == s.next {
        assert Voters(s.votes, k, true) == {} && Voters(s.votes, k, false) == {};
      } else {
        assert Counted(s, k);
      }
    }
    forall i, j | i in t.articles && j in t.articles && i != j && t.articles[i].org == t.articles[j].org
      ensures t.articles[i].slug != t.articles[j].slug
    {
      if i == s.next { assert s.articles[j].slug in Taken(s, a.org, None); }
      if j == s.next { assert s.articles[i].slug in Taken(s, a.org, None); }
    }
  }

  lemma DeleteKeepsInv(s: State, org: string, id: Id)
    requires Inv(s)
    ensures Inv(DeleteArticle(s, org, id).0)
  {
    hide WellFormed, Voters;
    var t := DeleteArticle(s, org, id).0;
    assert UniqueSlugs(t);
    hide UniqueSlugs;
    forall k | k in t.articles
      ensures Counted(t, k)
    {
      assert Counted(s, k);
      if t != s {
        VotersWithout(s.votes, id, k, true);
        VotersWithout(s.votes, id, k, false);
      }
    }
  }

  lemma VotersWithout(votes: map<(Id, User), Vote>, id: Id, k: Id, side: bool)
    requires k != id
    ensures Voters(map row | row in votes && row.0 != id :: votes[row], k, side) == Voters(votes, k, side)
  {
    var left := map row | row in votes && row.0 != id :: votes[row];
    forall u
      ensures u in Voters(left, k, side) <==> u in Voters(votes, k, side)
    {
      VoterRow(left, k, u, side);
      VoterRow(votes, k, u, side);
    }
  }

  /** One vote moves its user between the two camps of its article and touches no other article. */
  lemma VotersAfter(votes: map<(Id, User), Vote>, id: Id, user: User, v: Vote, other: Id, side: bool)
    ensures Voters(votes[(id, user) := v], other, side)
         == if other != id then Voters(votes, other, side)
            else if v.isHelpful == side then Voters(votes, id, side) + {user} else Voters(votes, id, side) - {user}
  {
    var after := votes[(id, user) := v];
    forall u
      ensures u in Voters(after, other, side) <==> (other, u) in after && after[(other, u)].isHelpful == side
      ensures u in Voters(votes, other, side) <==> (other, u) in votes && votes[(other, u)].isHelpful == side
    {
      VoterRow(after, other, u, side);
      VoterRow(votes, other, u, side);
    }
  }

  lemma VoterRow(votes: map<(Id, User), Vote>, id: Id, u: User, side: bool)
    ensures u in Voters(votes, id, side) <==> (id, u) in votes && votes[(id, u)].isHelpful == side
  {
    if u in Voters(votes, id, side) {
      var k :| k in votes && k.0 == id && votes[k].isHelpful == side && k.1 == u;
      assert k == (id, u);
    }
  }

  /** A vote changes the recount by the same deltas it adds to the cached counters. */
  lemma VoteCounts(s: State, id: Id, user: User, isHelpful: bool, v: Vote, side: bool)
    requires v.isHelpful == isHelpful
    ensures |Voters(s.votes[(id, user) := v], id, side)|
         == |Voters(s.votes, id, side)|
            + if side then HelpfulDelta(FindVote(s, id, user), isHelpful)
              else NotHelpfulDelta(FindVote(s, id, user), isHelpful)
  {
    VotersAfter(s.votes, id, user, v, id, side);
    VoterRow(s.votes, id, user, side);
  }

  lemma VoteKeepsSlugs(s: State, org: string, id: Id, user: User, isHelpful: bool)
    requires UniqueSlugs(s)
    ensures UniqueSlugs(VoteArticle(s, org, id, user, isHelpful).0)
  {
  }

  lemma VoteKeepsInv(s: State, org: string, id: Id, user: User, isHelpful: bool)
    requires Inv(s)
    ensures Inv(VoteArticle(s, org, id, user, isHelpful).0)
  {
    VoteKeepsSlugs(s, org, id, user, isHelpful);
    VoteKeepsRows(s, org, id, user, isHelpful);
    var t := VoteArticle(s, org, id, user, isHelpful).0;
    hide UniqueSlugs, Counted, WellFormed, VoteArticle;
    if t != s {
      forall k | k in t.articles
        ensures Counted(t, k)
      {
        assert Counted(s, k);
        if k == id {
          OwnStaysCounted(s, org, id, user, isHelpful);
        } else {
          OthersStayCounted(s, t, id, user, t.votes[(id, user)], k);
        }
      }
    }
  }

  lemma VoteKeepsRows(s: State, org: string, id: Id, user: User, isHelpful: bool)
    requires Inv(s)
    ensures var t := VoteArticle(s, org, id, user, isHelpful).0;
            && t.next == s.next && t.articles.Keys == s.articles.Keys
            && (forall k :: k in t.articles ==> k < t.next && WellFormed(t.articles[k]))
            && (forall k :: k in t.articles && k != id ==> t.articles[k] == s.articles[k])
            && (forall k :: k in t.votes ==> k.0 in t.articles && t.votes[k].comment == None)
            && (t != s ==> (id, user) in t.votes && t.votes == s.votes[(id, user) := t.votes[(id, user)]])
  {
    hide Counted, UniqueSlugs;
  }

  lemma OwnStaysCounted(s: State, org: string, id: Id, user: User, isHelpful: bool)
    requires id in s.articles && Counted(s, id)
    ensures id in VoteArticle(s, org, id, user, isHelpful).0.articles
    ensures Counted(VoteArticle(s, org, id, user, isHelpful).0, id)
  {
    hide Voters, HelpfulDelta, NotHelpfulDelta;
    var t := VoteArticle(s, org, id, user, isHelpful).0;
    if t != s {
      var v := t.votes[(id, user)];
      VoteCounts(s, id, user, isHelpful, v, true);
      VoteCounts(s, id, user, isHelpful, v, false);
    }
  }

  lemma OthersStayCounted(s: State, t: State, id: Id, user: User, v: Vote, k: Id)
    requires k != id && k in s.articles && Counted(s, k)
    requires t.votes == s.votes[(id, user) := v] && k in t.articles && t.articles[k] == s.articles[k]
    ensures Counted(t, k)
  {
    hide Voters;
    VotersAfter(s.votes, id, user, v, k, true);
    VotersAfter(s.votes, id, user, v, k, false);
  }

  lemma UpdateKeepsInv(slugify: string -> string, s: State, org: string, id: Id, c: Changes, now: int)
    requires Inv(s)
    ensures Inv(UpdateArticle(slugify, s, org, id, c, now).0)
  {
    hide FreeSlug, Trim, UpdatedSlug, UniqueSlugs, Counted;
    if UpdateArticle(slugify, s, org, id, c, now).1 == Done {
      var a := s.articles[id];
      var slug := UpdatedSlug(slugify, s, id, a, c);
      var b := UpdatedArticle(a, slug, c, now);
      assert WellFormed(a);
      assert WellFormed(b);
      PutKeepsInv(s, id, b);
    }
  }

  /** Every call keeps the counters equal to the recount, the versions numbered, published articles
      dated and slugs unique within their organization. */
  lemma StepKeepsInv(slugify: string -> string, s: State, op: Op)
    requires Inv(s)
    ensures Inv(Step(slugify, s, op).0)
  {
    match op
    case Create(org, n, now) =>
      if CreateArticle(slugify, s, org, n, now).1.Created? {
        InsertKeepsInv(s, CreateArticle(slugify, s, org, n, now).0.articles[s.next]);
      }
    case Update(org, id, c, now) => UpdateKeepsInv(slugify, s, org, id, c, now);
    case Duplicate(org, id) =>
      if Manageable(s, org, id) { InsertKeepsInv(s, DuplicateArticle(s, org, id).0.articles[s.next]); }
    case Delete(org, id) => DeleteKeepsInv(s, org, id);
    case CastVote(org, id, user, isHelpful) => VoteKeepsInv(s, org, id, user, isHelpful);
    case _ =>
      if Manageable(s, op.org, op.id) {
        OwnSlugIsFree(s, op.id);
        assert WellFormed(s.articles[op.id]);
        SimpleStepKeepsInv(slugify, s, op);
      }
  }

  lemma SimpleStepKeepsInv(slugify: string -> string, s: State, op: Op)
    requires Inv(s) && (op.Publish? || op.Archive? || op.Restore? || op.AddComment?)
    requires Manageable(s, op.org, op.id)
    ensures Inv(Step(slugify, s, op).0)
  {
    var t := Step(slugify, s, op).0;
    OwnSlugIsFree(s, op.id);
    assert WellFormed(s.articles[op.id]);
    if t != s {
      assert t == Put(s, op.id, t.articles[op.id]);
      PutKeepsInv(s, op.id, t.articles[op.id]);
    }
  }

  /** Over every sequence of calls. */
  lemma {:induction false} RunKeepsInv(slugify: string -> string, s: State, ops: seq<Op>)
    requires Inv(s)
    ensures Inv(Run(slugify, s, ops))
  {
    if ops != [] {
      RunKeepsInv(slugify, s, ops[..|ops|-1]);
      StepKeepsInv(slugify, Run(slugify, s, ops[..|ops|-1]), ops[|ops|-1]);
    }
  }

  lemma EmptyIsFine()
    ensures Inv(EMPTY)
  {
  }

  /** The counts a voter is shown are the recounted votes: holding them at zero never changes them. */
  lemma VoteResponseIsRecount(s: State, org: string, id: Id, user: User, isHelpful: bool)
    requires Inv(s) && Visible(s, org, id)
    ensures var (t, r) := VoteArticle(s, org, id, user, isHelpful);
            && r == Voted(isHelpful, |Voters(t.votes, id, true)|, |Voters(t.votes, id, false)|)
            && (id, user) in t.votes && t.votes[(id, user)].isHelpful == isHelpful
  {
    hide UniqueSlugs, WellFormed, Voters;
    VoteKeepsInv(s, org, id, user, isHelpful);
    var t := VoteArticle(s, org, id, user, isHelpful).0;
    assert Counted(t, id);
  }

  /** The slug search keeps creation, duplication and retitling from ever running into the uniqueness
      constraint; only an explicit slug can. */
  lemma OnlyExplicitSlugsConflict(slugify: string -> string, s: State, op: Op)
    requires Inv(s)
    ensures Step(slugify, s, op).1 == SlugConflict <==>
            && op.Update? && Manageable(s, op.org, op.id) && Trim(op.changes.slug) != ""
            && Trim(op.changes.slug) in Taken(s, op.org, Some(op.id))
  {
    if op.Update? && Manageable(s, op.org, op.id) { OwnSlugIsFree(s, op.id); }
  }

  // ----- What one call undoes -----

  /** Restoring an archived article gives back exactly what was archived if that was published, or a draft that
      never had been; any other article comes back with a different status. */
  lemma RestoreUndoesArchive(s: State, org: string, id: Id)
    requires Inv(s) && Manageable(s, org, id)
    ensures RestoreArticle(ArchiveArticle(s, org, id).0, org, id).0 == s <==>
            s.articles[id].status == Published || (s.articles[id].status == Draft && s.articles[id].publishedAt.None?)
  {
    hide UniqueSlugs, Counted;
    var a := s.articles[id];
    var restored := RestoreArticle(ArchiveArticle(s, org, id).0, org, id).0;
    assert restored.articles[id] == a.(status := if a.publishedAt.Some? then Published else Draft);
    if restored.articles[id] == a { assert restored.articles == s.articles; }
  }

  /** Casting the same vote again changes nothing, and changing one's mind back restores every counter and row. */
  lemma VotesAreReversible(s: State, org: string, id: Id, user: User, isHelpful: bool)
    requires Inv(s) && Visible(s, org, id)
    ensures var t := VoteArticle(s, org, id, user, isHelpful).0;
            && VoteArticle(t, org, id, user, isHelpful).0 == t
            && VoteArticle(VoteArticle(t, org, id, user, !isHelpful).0, org, id, user, isHelpful).0 == t
  {
    hide UniqueSlugs, Counted, WellFormed;
    var t := VoteArticle(s, org, id, user, isHelpful).0;
    var u := VoteArticle(t, org, id, user, !isHelpful).0;
    var v := VoteArticle(u, org, id, user, isHelpful).0;
    assert v.articles[id] == t.articles[id];
    assert v.articles == t.articles && v.votes == t.votes;
  }

  // ----- Version history -----

  datatype Snapshot = Snapshot(title: string, content: string)

  function Snapshots(versions: seq<Version>): seq<Snapshot> {
    if versions == [] then []
    else
      var last := versions[|versions|-1];
      Snapshots(versions[..|versions|-1]) + [Snapshot(last.title, last.content)]
  }

  /** Everything an article has said from its first version on: its history and what it says now. A created
      article records its first text twice, so its history is read from `skip` = 1; a duplicate's from 0. */
  function Trail(a: Article, skip: nat): seq<Snapshot>
    requires skip <= |a.versions|
  {
    Snapshots(a.versions[skip..]) + [Snapshot(a.title, a.content)]
  }

  /** What an update makes of a text: the given title, trimmed, and the given content, each if there is one. */
  function Edited(text: Snapshot, c: Changes): Snapshot {
    Snapshot(if c.title.Some? then Trim(c.title.value) else text.title,
             if c.content.Some? then c.content.value else text.content)
  }

  /** The texts that the successful updates of an article ask for during a run, in order, each from the arguments of the
      update and the text before it. */
  function Edits(slugify: string -> string, s: State, ops: seq<Op>, id: Id, first: Snapshot): seq<Snapshot> {
    if ops == [] then []
    else
      var earlier, op := Edits(slugify, s, ops[..|ops|-1], id, first), ops[|ops|-1];
      if op.Update? && op.id == id && Step(slugify, Run(slugify, s, ops[..|ops|-1]), op).1 == Done
      then earlier + [Edited(LastOf(earlier, first), op.changes)]
      else earlier
  }

  function LastOf(texts: seq<Snapshot>, first: Snapshot): Snapshot {
    if texts == [] then first else texts[|texts|-1]
  }

  function Current(a: Article): Snapshot { Snapshot(a.title, a.content) }

  /** A call appends to the history of an article exactly when it is an update of it, namely the text the update asks
      for, and never changes the history, the publication date once set, or the organization. */
  lemma StepKeepsHistory(slugify: string -> string, s: State, op: Op, id: Id, skip: nat)
    requires Inv(s) && id in s.articles && skip <= |s.articles[id].versions|
    requires id in Step(slugify, s, op).0.articles
    ensures var a, (t, r) := s.articles[id], Step(slugify, s, op);
            var b := t.articles[id];
            && a.org == b.org && a.versions <= b.versions
            && (a.publishedAt.Some? ==> b.publishedAt == a.publishedAt)
            && var more := if op.Update? && op.id == id && r == Done then [Edited(Current(a), op.changes)] else [];
            Trail(b, skip) == Trail(a, skip) + more
  {
    hide FreeSlug, Trim, Taken, ArticleBase, WellFormed, Counted, UniqueSlugs;
    var a := s.articles[id];
    var (t, r) := Step(slugify, s, op);
    var b := t.articles[id];
    if op.Update? && op.id == id && r == Done {
      var last := Version(|a.versions| + 1, a.title, a.content);
      assert b.versions == a.versions + [last];
      assert b.versions[skip..] == a.versions[skip..] + [last];
      SnapshotsSnoc(a.versions[skip..], last);
    } else {
      SameHistory(slugify, s, op, id);
    }
  }

  lemma SnapshotsSnoc(versions: seq<Version>, last: Version)
    ensures Snapshots(versions + [last]) == Snapshots(versions) + [Snapshot(last.title, last.content)]
  {
    assert (versions + [last])[..|versions|] == versions;
  }

  lemma SameHistory(slugify: string -> string, s: State, op: Op, id: Id)
    requires Inv(s) && id in s.articles && id in Step(slugify, s, op).0.articles
    requires !(op.Update? && op.id == id && Step(slugify, s, op).1 == Done)
    ensures var a, b := s.articles[id], Step(slugify, s, op).0.articles[id];
            && a.org == b.org && a.versions == b.versions && a.title == b.title && a.content == b.content
            && (a.publishedAt.Some? ==> b.publishedAt == a.publishedAt)
  {
    hide FreeSlug, Trim, Taken, ArticleBase, WellFormed, Counted, UniqueSlugs;
    assert id < s.next;
  }

  /** Ids are never reused: an article that is there at the end was there all along. */
  lemma StepKeepsPresence(slugify: string -> string, s: State, op: Op, id: Id)
    requires id < s.next && id in Step(slugify, s, op).0.articles
    ensures id in s.articles && s.next <= Step(slugify, s, op).0.next
  {
  }

  lemma {:induction false} RunKeepsNext(slugify: string -> string, s: State, ops: seq<Op>)
    ensures s.next <= Run(slugify, s, ops).next
  {
    hide Step;
    if ops != [] {
      RunKeepsNext(slugify, s, ops[..|ops|-1]);
      StepKeepsNext(slugify, Run(slugify, s, ops[..|ops|-1]), ops[|ops|-1]);
    }
  }

  lemma StepKeepsNext(slugify: string -> string, s: State, op: Op)
    ensures s.next <= Step(slugify, s, op).0.next
  {
    hide FreeSlug, Trim, Taken, ArticleBase, UpdatedSlug, UpdatedArticle;
  }

  lemma IdInRange(s: State, id: Id)
    requires Inv(s) && id in s.articles
    ensures id < s.next
  {
  }

  lemma TrailEnds(a: Article, skip: nat)
    requires skip <= |a.versions|
    ensures Trail(a, skip)[|Trail(a, skip)|-1] == Current(a)
  {
  }

  /** The organization stays, the history only grows at the end, the publication date is written once, and
      everything said so far is followed by the edits. */
  ghost predicate Grew(a: Article, b: Article, skip: nat, edits: seq<Snapshot>) {
    && a.org == b.org && a.versions <= b.versions
    && (a.publishedAt.Some? ==> b.publishedAt == a.publishedAt)
    && skip <= |a.versions| && Trail(b, skip) == Trail(a, skip) + edits
  }

  lemma GrewTransitive(a: Article, b: Article, c: Article, skip: nat, edits: seq<Snapshot>, more: seq<Snapshot>)
    requires Grew(a, b, skip, edits) && Grew(b, c, skip, more)
    ensures Grew(a, c, skip, edits + more)
  {
    hide Trail;
    assert Trail(a, skip) + edits + more == Trail(a, skip) + (edits + more);
  }

  /** Over every run that keeps an article, its history plus its current text is the text it started with
      followed by every edit. */
  lemma {:induction false} HistoryIsComplete(slugify: string -> string, s: State, ops: seq<Op>, id: Id, skip: nat)
    requires Inv(s) && id in s.articles && skip <= |s.articles[id].versions|
    requires id in Run(slugify, s, ops).articles
    ensures Grew(s.articles[id], Run(slugify, s, ops).articles[id], skip,
                 Edits(slugify, s, ops, id, Current(s.articles[id])))
  {
    IdInRange(s, id);
    hide Step, Inv, Trail;
    if ops != [] {
      var front, op := ops[..|ops|-1], ops[|ops|-1];
      RunIsStep(slugify, s, ops);
      hide Run, Edits;
      RunKeepsInv(slugify, s, front);
      RunKeepsNext(slugify, s, front);
      StepKeepsPresence(slugify, Run(slugify, s, front), op, id);
      HistoryIsComplete(slugify, s, front, id, skip);
      assert skip <= |Run(slugify, s, front).articles[id].versions|;
      var first := Current(s.articles[id]);
      LastIsText(s.articles[id], Run(slugify, s, front).articles[id], skip, Edits(slugify, s, front, id, first));
      hide Grew;
      var more := HistoryGrows(slugify, s, ops, id, skip, first);
      GrewTransitive(s.articles[id], Run(slugify, s, front).articles[id], Run(slugify, s, ops).articles[id], skip,
                     Edits(slugify, s, front, id, first), more);
    }
  }

  lemma LastIsText(a: Article, b: Article, skip: nat, edits: seq<Snapshot>)
    requires Grew(a, b, skip, edits)
    ensures LastOf(edits, Current(a)) == Current(b)
  {
    TrailEnds(a, skip);
    TrailEnds(b, skip);
    var trail := Trail(a, skip) + edits;
    if edits == [] { assert trail == Trail(a, skip); } else { assert trail[|trail|-1] == edits[|edits|-1]; }
  }

  lemma RunIsStep(slugify: string -> string, s: State, ops: seq<Op>)
    requires ops != []
    ensures Run(slugify, s, ops) == Step(slugify, Run(slugify, s, ops[..|ops|-1]), ops[|ops|-1]).0
  {
    hide Step;
  }

  /** One more call adds its edit, if it is one. */
  lemma HistoryGrows(slugify: string -> string, s: State, ops: seq<Op>, id: Id, skip: nat, first: Snapshot)
    returns (more: seq<Snapshot>)
    requires ops != [] && Inv(Run(slugify, s, ops[..|ops|-1]))
    requires id in Run(slugify, s, ops[..|ops|-1]).articles && id in Run(slugify, s, ops).articles
    requires skip <= |Run(slugify, s, ops[..|ops|-1]).articles[id].versions|
    ensures Grew(Run(slugify, s, ops[..|ops|-1]).articles[id], Run(slugify, s, ops).articles[id], skip, more)
    ensures Current(Run(slugify, s, ops[..|ops|-1]).articles[id])
            == LastOf(Edits(slugify, s, ops[..|ops|-1], id, first), first) ==>
              Edits(slugify, s, ops, id, first) == Edits(slugify, s, ops[..|ops|-1], id, first) + more
  {
    hide Step, Inv, Trail, Edited, LastOf, Current;
    var front, op := ops[..|ops|-1], ops[|ops|-1];
    var before := Run(slugify, s, front);
    StepKeepsHistory(slugify, before, op, id, skip);
    var (after, r) := Step(slugify, before, op);
    more := if op.Update? && op.id == id && r == Done then [Edited(Current(before.articles[id]), op.changes)] else [];
  }

  /** A created article starts with its text as version 1. */
  lemma CreatedHistory(slugify: string -> string, s: State, org: string, n: NewArticle, now: int)
    requires CreateArticle(slugify, s, org, n, now).1.Created?
    ensures var (t, r) := CreateArticle(slugify, s, org, n, now);
            && r.id == s.next && s.next in t.articles
            && t.articles[r.id].versions == [Version(1, Trim(n.title), n.content)]
            && Trail(t.articles[r.id], 1) == [Snapshot(Trim(n.title), n.content)]
  {
    hide FreeSlug, Trim, Taken, ArticleBase;
    var a := CreateArticle(slugify, s, org, n, now).0.articles[s.next];
    assert a.versions[1..] == [];
  }

  /** Whatever calls follow its creation, as long as the article is there it holds, in order, the text it was created
      with and every edit since. */
  lemma HistoryFromCreation(slugify: string -> string, s: State, org: string, n: NewArticle, now: int, ops: seq<Op>)
    requires Inv(s) && CreateArticle(slugify, s, org, n, now).1.Created?
    requires s.next in Run(slugify, CreateArticle(slugify, s, org, n, now).0, ops).articles
    ensures var t := CreateArticle(slugify, s, org, n, now).0;
            var a := Run(slugify, t, ops).articles[s.next];
            && a.versions != [] && a.versions[0] == Version(1, Trim(n.title), n.content)
            && var text := Snapshot(Trim(n.title), n.content);
            Trail(a, 1) == [text] + Edits(slugify, t, ops, s.next, text)
  {
    var (t, r) := CreateArticle(slugify, s, org, n, now);
    StepKeepsInv(slugify, s, Create(org, n, now));
    assert t == Step(slugify, s, Create(org, n, now)).0;
    CreatedHistory(slugify, s, org, n, now);
    hide Inv, Step, Run, Edits, FreeSlug, Trim, Taken, ArticleBase;
    HistoryIsComplete(slugify, t, ops, s.next, 1);
  }
}
