/**
 * The request-body schemas of validations/validation.js.
 *
 * A schema is an ordered list of keys, each with a rule. Validation stops at
 * the first key whose rule fails and reports that key; a body is accepted when
 * no key fails. A body is a record with one optional JSON value per key of its
 * schema (an absent key is None).
 */
module Validation {

  import opened Options

  /** The JSON values a request body can carry; Other stands for booleans, null and objects. */
  datatype Value = Str(s: string) | Num(n: real) | Arr(items: seq<Value>) | Other

  /** The topic vocabulary, shared by the post-creation schema and the Post schema. */
  const ValidTopics: seq<string> := ["politics", "health", "sport", "tech"]

  /** The interaction types the interaction schema admits. */
  const InteractionTypes: seq<string> := ["like", "dislike", "comment"]

  predicate IsTopic(t: string) {
    t in ValidTopics
  }

  // ---------------------------------------------------------------------------
  // Stopping at the first failing key

  /** The first key of `order` whose rule does not hold, or None when all hold. */
  function FirstFailure<K>(order: seq<K>, holds: K -> bool): (r: Option<K>)
    ensures r.None? <==> forall i | 0 <= i < |order| :: holds(order[i])
    ensures r.Some? ==> exists i | 0 <= i < |order| ::
      order[i] == r.value && !holds(order[i]) && forall j | 0 <= j < i :: holds(order[j])
  {
    if order == [] then None
    else if !holds(order[0]) then Some(order[0])
    else
      var rest := FirstFailure(order[1..], holds);
      assert rest.Some? ==> exists i | 1 <= i < |order| ::
        order[i] == rest.value && !holds(order[i]) && forall j | 0 <= j < i :: holds(order[j]) by {
        if rest.Some? {
          var i :| 0 <= i < |order[1..]| && order[1..][i] == rest.value && !holds(order[1..][i])
            && forall j | 0 <= j < i :: holds(order[1..][j]);
          assert forall j | 0 <= j < i + 1 :: holds(order[j]) by {
            forall j | 0 <= j < i + 1 ensures holds(order[j]) {
              if j > 0 { assert order[j] == order[1..][j - 1]; }
            }
          }
        }
      }
      assert rest.None? ==> forall i | 0 <= i < |order| :: holds(order[i]) by {
        if rest.None? {
          forall i | 0 <= i < |order| ensures holds(order[i]) {
            if i > 0 { assert order[i] == order[1..][i - 1]; }
          }
        }
      }
      rest
  }

  // ---------------------------------------------------------------------------
  // Rules shared by several schemas

  /** A required string of `lo` to `hi` characters. */
  predicate StringWithin(v: Option<Value>, lo: nat, hi: nat) {
    v.Some? && v.value.Str? && lo <= |v.value.s| <= hi
  }

  /** A required string of at least `lo` characters. */
  predicate StringAtLeast(v: Option<Value>, lo: nat) {
    v.Some? && v.value.Str? && lo <= |v.value.s|
  }

  /**
   * The email key (validations/validation.js:9, 19): a required string of 6 to 256
   * characters that is an address; the address syntax is the caller's `isEmail`.
   */
  predicate EmailRule(v: Option<Value>, isEmail: string -> bool) {
    StringWithin(v, 6, 256) && isEmail(v.value.s)
  }

  /** The password key (validations/validation.js:10, 20): a required string of 6 to 1024 characters. */
  predicate PasswordRule(v: Option<Value>) {
    StringWithin(v, 6, 1024)
  }

  // ---------------------------------------------------------------------------
  // registerValidation

  datatype RegisterBody = RegisterBody(username: Option<Value>, email: Option<Value>,
                                       password: Option<Value>, name: Option<Value>)
  datatype RegisterKey = Username | Email | Password | Name

  predicate RegisterRule(b: RegisterBody, k: RegisterKey, isEmail: string -> bool) {
    match k
    case Username => StringWithin(b.username, 3, 256)
    case Email => EmailRule(b.email, isEmail)
    case Password => PasswordRule(b.password)
    case Name => StringWithin(b.name, 3, 256)
  }

  function RegisterError(b: RegisterBody, isEmail: string -> bool): (r: Option<RegisterKey>)
    ensures r.None? <==>
      && StringWithin(b.username, 3, 256) && EmailRule(b.email, isEmail)
      && StringWithin(b.password, 6, 1024) && StringWithin(b.name, 3, 256)
    ensures r == Some(Email) ==> StringWithin(b.username, 3, 256)
    ensures r == Some(Password) ==> StringWithin(b.username, 3, 256) && EmailRule(b.email, isEmail)
    ensures r == Some(Name) ==> StringWithin(b.username, 3, 256) && EmailRule(b.email, isEmail)
                                && PasswordRule(b.password)
    ensures r.Some? ==> !RegisterRule(b, r.value, isEmail)
  {
    var order := [Username, Email, Password, Name];
    var e := FirstFailure(order, k => RegisterRule(b, k, isEmail));
    assert e.None? <== RegisterRule(b, order[0], isEmail) && RegisterRule(b, order[1], isEmail)
                       && RegisterRule(b, order[2], isEmail) && RegisterRule(b, order[3], isEmail);
    e
  }

  // ---------------------------------------------------------------------------
  // loginValidation

  datatype LoginBody = LoginBody(email: Option<Value>, password: Option<Value>)
  datatype LoginKey = LoginEmail | LoginPassword

  predicate LoginRule(b: LoginBody, k: LoginKey, isEmail: string -> bool) {
    match k
    case LoginEmail => EmailRule(b.email, isEmail)
    case LoginPassword => PasswordRule(b.password)
  }

  function LoginError(b: LoginBody, isEmail: string -> bool): (r: Option<LoginKey>)
    ensures r.None? <==> EmailRule(b.email, isEmail) && StringWithin(b.password, 6, 1024)
    ensures r == Some(LoginPassword) ==> EmailRule(b.email, isEmail)
    ensures r.Some? ==> !LoginRule(b, r.value, isEmail)
  {
    var order := [LoginEmail, LoginPassword];
    var e := FirstFailure(order, k => LoginRule(b, k, isEmail));
    assert e.None? <== LoginRule(b, order[0], isEmail) && LoginRule(b, order[1], isEmail);
    e
  }

  // ---------------------------------------------------------------------------
  // postValidation

  datatype PostBody = PostBody(title: Option<Value>, body: Option<Value>,
                               expiresIn: Option<Value>, topics: Option<Value>)
  datatype PostKey = Title | Body | ExpiresIn | Topics

  /**
   * The topics key (validations/validation.js:31-35): a required, non-empty array
   * whose every element is a string from the topic vocabulary.
   */
  predicate TopicsRule(v: Option<Value>) {
    && v.Some? && v.value.Arr? && |v.value.items| >= 1
    && forall i | 0 <= i < |v.value.items| :: v.value.items[i].Str? && IsTopic(v.value.items[i].s)
  }

  predicate PostRule(b: PostBody, k: PostKey) {
    match k
    case Title => StringWithin(b.title, 3, 256)
    case Body => StringAtLeast(b.body, 10)
    case ExpiresIn => b.expiresIn.Some? && b.expiresIn.value.Num? && b.expiresIn.value.n > 0.0
    case Topics => TopicsRule(b.topics)
  }

  function PostError(b: PostBody): (r: Option<PostKey>)
    ensures r.None? <==>
      && b.title.Some? && b.title.value.Str? && 3 <= |b.title.value.s| <= 256
      && b.body.Some? && b.body.value.Str? && 10 <= |b.body.value.s|
      && b.expiresIn.Some? && b.expiresIn.value.Num? && b.expiresIn.value.n > 0.0
      && b.topics.Some? && b.topics.value.Arr? && |b.topics.value.items| >= 1
      && forall i | 0 <= i < |b.topics.value.items| ::
           b.topics.value.items[i].Str? && b.topics.value.items[i].s in ValidTopics
    ensures r == Some(Body) ==> PostRule(b, Title)
    ensures r == Some(ExpiresIn) ==> PostRule(b, Title) && PostRule(b, Body)
    ensures r == Some(Topics) ==> PostRule(b, Title) && PostRule(b, Body) && PostRule(b, ExpiresIn)
    ensures r.Some? ==> !PostRule(b, r.value)
  {
    var order := [Title, Body, ExpiresIn, Topics];
    var e := FirstFailure(order, k => PostRule(b, k));
    assert e.None? <== PostRule(b, order[0]) && PostRule(b, order[1])
                       && PostRule(b, order[2]) && PostRule(b, order[3]);
    e
  }

  // ---------------------------------------------------------------------------
  // interactionValidation

  datatype InteractionBody = InteractionBody(postId: Option<Value>, kind: Option<Value>,
                                             commentBody: Option<Value>)
  datatype InteractionKey = PostId | Type | CommentBody

  predicate InteractionRule(b: InteractionBody, k: InteractionKey) {
    match k
    case PostId => b.postId.Some? && b.postId.value.Str?
    case Type => b.kind.Some? && b.kind.value.Str? && b.kind.value.s in InteractionTypes
    case CommentBody =>
      // validations/validation.js:45-49: required and non-empty for comments, absent otherwise
      if b.kind == Some(Str("comment")) then StringAtLeast(b.commentBody, 1)
      else b.commentBody.None?
  }

  function InteractionError(b: InteractionBody): (r: Option<InteractionKey>)
    ensures r.None? <==>
      && b.postId.Some? && b.postId.value.Str?
      && b.kind.Some? && b.kind.value.Str? && b.kind.value.s in {"like", "dislike", "comment"}
      && (b.commentBody.Some? <==> b.kind.value.s == "comment")
      && (b.commentBody.Some? ==> b.commentBody.value.Str? && |b.commentBody.value.s| >= 1)
    ensures r == Some(Type) ==> InteractionRule(b, PostId)
    ensures r == Some(CommentBody) ==> InteractionRule(b, PostId) && InteractionRule(b, Type)
    ensures r.Some? ==> !InteractionRule(b, r.value)
  {
    var order := [PostId, Type, CommentBody];
    var e := FirstFailure(order, k => InteractionRule(b, k));
    assert e.None? <== InteractionRule(b, order[0]) && InteractionRule(b, order[1])
                       && InteractionRule(b, order[2]);
    e
  }

  // ---------------------------------------------------------------------------
  // Facts about the vocabulary and the schemas

  /** Topic membership is exact: no case folding, nothing outside the four names. */
  lemma TopicVocabulary(t: string)
    ensures IsTopic(t) <==> t == "politics" || t == "health" || t == "sport" || t == "tech"
    ensures !IsTopic("Politics") && !IsTopic("TECH") && !IsTopic("")
  {
  }

  /** The schema does not ask for distinct topics: repeating a topic of an accepted body keeps it accepted. */
  lemma DuplicateTopicsAccepted(b: PostBody, i: nat)
    requires PostError(b).None? && i < |b.topics.value.items|
    ensures PostError(b.(topics := Some(Arr(b.topics.value.items + [b.topics.value.items[i]])))).None?
  {
  }

  /** A body whose other keys pass but whose topics array is empty is rejected, with topics reported. */
  lemma EmptyTopicsRejected(b: PostBody)
    requires PostRule(b, Title) && PostRule(b, Body) && PostRule(b, ExpiresIn)
    requires b.topics == Some(Arr([]))
    ensures PostError(b) == Some(Topics)
  {
    assert !PostRule(b, Topics);
  }

}
