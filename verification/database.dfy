/** The two tables and the constraints declared on them: `authors.name` unique and not
    null, `posts.author_id` a non-null foreign key to `authors.id`, and the Author.posts
    relationship that deletes an author's posts with the author. A write either commits
    whole or is rolled back and leaves both tables as they were. */
module Database {
  import opened Values
  import opened Models

  /** The constraint a write violated at commit time. */
  datatype IntegrityViolation =
    | DuplicateName(name: string)   // authors.name is unique
    | NullAuthorId                  // posts.author_id is NOT NULL
    | UnknownAuthorId(id: int)      // posts.author_id references authors.id

  /** Why a write was rolled back: a field rule raised while the entity was built, or a
      table constraint failed when it was committed. */
  datatype WriteError = Invalid(error: FieldError) | Integrity(violation: IntegrityViolation)

  /** Some stored author already has `name`. */
  predicate NameTaken(authors: map<int, Author>, name: string) {
    exists id :: id in authors && authors[id].name == name
  }

  /** The unique constraint on authors.name. */
  ghost predicate UniqueNames(authors: map<int, Author>) {
    forall i, j :: i in authors && j in authors && i != j ==> authors[i].name != authors[j].name
  }

  /** The foreign key on posts.author_id: present and naming a stored author. */
  ghost predicate AuthorIdsResolve(authors: map<int, Author>, posts: map<int, Post>) {
    forall p :: p in posts ==> posts[p].authorId.Some? && posts[p].authorId.value in authors
  }

  /** Every invariant a committed state satisfies. */
  ghost predicate Consistent(authors: map<int, Author>, posts: map<int, Post>) {
    && UniqueNames(authors)
    && (forall a :: a in authors ==> WellFormedAuthor(authors[a]))
    && (forall p :: p in posts ==> WellFormedPost(posts[p]))
    && AuthorIdsResolve(authors, posts)
  }

  /** The ids of the posts that belong to author `id` (the Author.posts relationship). */
  function PostsOf(posts: map<int, Post>, id: int): set<int> {
    set p | p in posts && posts[p].authorId == Some(id)
  }

  /** The posts table after the delete-orphan cascade for author `id`: exactly the posts of
      other authors, each unchanged. */
  function WithoutPostsOf(posts: map<int, Post>, id: int): (rest: map<int, Post>)
    ensures rest.Keys == posts.Keys - PostsOf(posts, id)
    ensures forall p :: p in rest ==> rest[p] == posts[p] && rest[p].authorId != Some(id)
    ensures PostsOf(rest, id) == {}
    ensures forall other :: other != id ==> PostsOf(rest, other) == PostsOf(posts, other)
  {
    map p | p in posts && posts[p].authorId != Some(id) :: posts[p]
  }

  /** In a consistent state an id that names no author owns no posts: no post is left
      without its author. */
  lemma NoOrphanPosts(authors: map<int, Author>, posts: map<int, Post>, id: int)
    requires Consistent(authors, posts) && id !in authors
    ensures PostsOf(posts, id) == {}
  {
    forall p | p in posts
      ensures posts[p].authorId != Some(id)
    {
      assert posts[p].authorId.value in authors;
    }
  }

  /** Removing an author together with its posts keeps every invariant. */
  lemma CascadeKeepsConsistent(authors: map<int, Author>, posts: map<int, Post>, id: int)
    requires Consistent(authors, posts)
    ensures Consistent(authors - {id}, WithoutPostsOf(posts, id))
  {
  }

  /** The authors and posts tables. Ids come from counters, so a new row never takes the
      id of one that is or was stored. */
  class Store {
    var authors: map<int, Author>
    var posts: map<int, Post>
    var nextAuthorId: int
    var nextPostId: int

    ghost predicate Valid()
      reads this
    {
      && Consistent(authors, posts)
      && 0 < nextAuthorId && 0 < nextPostId
      && (forall id :: id in authors ==> 0 < id < nextAuthorId)
      && (forall id :: id in posts ==> 0 < id < nextPostId)
    }

    /** Empty tables; ids start at 1. */
    constructor ()
      ensures Valid()
      ensures authors == map[] && posts == map[]
    {
      authors := map[];
      posts := map[];
      nextAuthorId := 1;
      nextPostId := 1;
    }

    /** `POST /authors`: build the Author, then commit it. A rejected field or a name that
        another author already has rolls back and changes nothing; otherwise the author is
        stored under a new id and the posts are untouched. */
    method InsertAuthor(name: Option<string>, phoneNumber: Option<string>) returns (r: Result<int, WriteError>)
      requires Valid()
      modifies this
      ensures Valid()
      ensures NewAuthor(name, phoneNumber).Failure? ==>
        r == Failure(Invalid(NewAuthor(name, phoneNumber).error))
      ensures NewAuthor(name, phoneNumber).Success? && NameTaken(old(authors), name.value) ==>
        r == Failure(Integrity(DuplicateName(name.value)))
      ensures r.Success? <==> NewAuthor(name, phoneNumber).Success? && !NameTaken(old(authors), name.value)
      ensures r.Failure? ==> unchanged(this)
      ensures r.Success? ==>
        && NewAuthor(name, phoneNumber) == Success(Author(name.value, phoneNumber))
        && r.value !in old(authors)
        && authors == old(authors)[r.value := Author(name.value, phoneNumber)]
        && posts == old(posts)
    {
      var built := NewAuthor(name, phoneNumber);
      if built.Failure? {
        return Failure(Invalid(built.error));
      }
      var author := built.value;
      if NameTaken(authors, author.name) {
        return Failure(Integrity(DuplicateName(author.name)));
      }
      var id := nextAuthorId;
      authors := authors[id := author];
      nextAuthorId := nextAuthorId + 1;
      r := Success(id);
    }

    /** `POST /posts`: build the Post, then commit it. A rejected field, an absent author id
        or one that names no stored author rolls back and changes nothing; otherwise the
        post is stored under a new id and the authors are untouched. */
    method InsertPost(
      title: Option<string>,
      content: Option<string>,
      summary: Option<string>,
      category: Option<string>,
      authorId: Option<int>) returns (r: Result<int, WriteError>)
      requires Valid()
      modifies this
      ensures Valid()
      ensures NewPost(title, content, summary, category, authorId).Failure? ==>
        r == Failure(Invalid(NewPost(title, content, summary, category, authorId).error))
      ensures NewPost(title, content, summary, category, authorId).Success? && authorId.None? ==>
        r == Failure(Integrity(NullAuthorId))
      ensures NewPost(title, content, summary, category, authorId).Success?
        && authorId.Some? && authorId.value !in old(authors)
        ==> r == Failure(Integrity(UnknownAuthorId(authorId.value)))
      ensures r.Success? <==>
        && NewPost(title, content, summary, category, authorId).Success?
        && authorId.Some? && authorId.value in old(authors)
      ensures r.Failure? ==> unchanged(this)
      ensures r.Success? ==>
        && NewPost(title, content, summary, category, authorId).Success?
        && authorId.Some? && authorId.value in authors
        && r.value !in old(posts)
        && posts == old(posts)[r.value := NewPost(title, content, summary, category, authorId).value]
        && authors == old(authors)
    {
      var built := NewPost(title, content, summary, category, authorId);
      if built.Failure? {
        return Failure(Invalid(built.error));
      }
      if authorId.None? {
        return Failure(Integrity(NullAuthorId));
      }
      if authorId.value !in authors {
        return Failure(Integrity(UnknownAuthorId(authorId.value)));
      }
      var id := nextPostId;
      posts := posts[id := built.value];
      nextPostId := nextPostId + 1;
      r := Success(id);
    }

    /** `db.session.delete(author)`: removes the author and, by the delete-orphan cascade,
        every post whose author_id is that author's id. Reports whether the author existed;
        deleting an unknown id changes nothing. */
    method DeleteAuthor(id: int) returns (found: bool)
      requires Valid()
      modifies this
      ensures Valid()
      ensures found <==> id in old(authors)
      ensures !found ==> authors == old(authors) && posts == old(posts)
      ensures authors == old(authors) - {id}
      ensures posts.Keys == old(posts).Keys - PostsOf(old(posts), id)
      ensures forall p :: p in posts ==> posts[p] == old(posts)[p]
      ensures forall p :: p in posts ==> posts[p].authorId != Some(id)
      ensures nextAuthorId == old(nextAuthorId) && nextPostId == old(nextPostId)
    {
      found := id in authors;
      if !found {
        NoOrphanPosts(authors, posts, id);
      }
      CascadeKeepsConsistent(authors, posts, id);
      posts := WithoutPostsOf(posts, id);
      authors := authors - {id};
    }
  }

  /** Two authors created with the same name: the second creation is rolled back with an
      integrity violation and the first author stays stored as it was. */
  method CreateTwiceWithSameName(store: Store, name: string, firstPhone: Option<string>, secondPhone: Option<string>)
    returns (first: Result<int, WriteError>, second: Result<int, WriteError>)
    requires store.Valid()
    modifies store
    ensures store.Valid()
    ensures first.Success? && NewAuthor(Some(name), secondPhone).Success? ==>
      second == Failure(Integrity(DuplicateName(name)))
    ensures first.Success? ==> store.authors == old(store.authors)[first.value := Author(name, firstPhone)]
  {
    first := store.InsertAuthor(Some(name), firstPhone);
    if first.Success? {
      var id: int := first.value;
      assert id in store.authors && store.authors[id].name == name;
      assert NameTaken(store.authors, name);
    }
    second := store.InsertAuthor(Some(name), secondPhone);
  }
}
