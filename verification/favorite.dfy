/** The click handler on a story's heart icon: toggle the icon's classes, then
    choose the remote favorite call from the classes after the toggle. */
module Favorite {
  import opened Wrappers
  import opened Session

  /** The class list of one element. */
  type ClassSet = set<string>

  /** Font Awesome's regular (outlined) and solid styles. */
  const Regular: string := "far"
  const Solid: string := "fas"

  /** The class names of `toggleClass("far fas")`, in the order jQuery reads them. */
  const HeartStyles: seq<string> := [Regular, Solid]

  /** The classes every story's heart is rendered with. */
  const RenderedHeart: ClassSet := {Regular, "fa-heart"}

  predicate Odd(n: nat) {
    n % 2 == 1
  }

  /** Toggling one class flips its membership and leaves every other class alone. */
  function Toggle(cs: ClassSet, c: string): (r: ClassSet)
    ensures c in r <==> c !in cs
    ensures forall d :: d != c ==> (d in r <==> d in cs)
  {
    if c in cs then cs - {c} else cs + {c}
  }

  /** jQuery's `toggleClass` on a list of names: each name is toggled in turn,
      so a class ends up flipped exactly when it is named an odd number of times. */
  function ToggleClass(cs: ClassSet, names: seq<string>): (r: ClassSet)
    ensures forall d :: d in r <==> ((d in cs) != Odd(multiset(names)[d]))
    decreases |names|
  {
    if |names| == 0 then cs
    else
      assert names == [names[0]] + names[1..];
      ToggleClass(Toggle(cs, names[0]), names[1..])
  }

  /** `toggleClass("far fas")` flips `far` and `fas` and nothing else. */
  lemma ToggleHeartFlips(cs: ClassSet)
    ensures Regular in ToggleClass(cs, HeartStyles) <==> Regular !in cs
    ensures Solid in ToggleClass(cs, HeartStyles) <==> Solid !in cs
    ensures forall d :: d != Regular && d != Solid ==> (d in ToggleClass(cs, HeartStyles) <==> d in cs)
  {
  }

  /** Toggling the heart twice restores its classes. */
  lemma ToggleHeartTwice(cs: ClassSet)
    ensures ToggleClass(ToggleClass(cs, HeartStyles), HeartStyles) == cs
  {
  }

  /** The heart shows exactly one of its two styles. */
  predicate OneStyle(cs: ClassSet) {
    (Regular in cs) != (Solid in cs)
  }

  /** A heart showing one style shows the other one after the toggle. */
  lemma ToggleKeepsOneStyle(cs: ClassSet)
    requires OneStyle(cs)
    ensures OneStyle(ToggleClass(cs, HeartStyles))
    ensures (Solid in ToggleClass(cs, HeartStyles)) == (Regular in cs)
  {
  }

  /** The remote call a click issues; each is awaited but its result is unused. */
  datatype Call = AddFavorite(token: string, storyId: string) | RemoveFavorite(token: string, storyId: string)

  /** What one click does: reading `currentUser.loginToken` with no user throws
      before anything changes; otherwise the classes are toggled and at most one
      call is issued. */
  datatype Click = TypeErrorThrown | Clicked(classes: ClassSet, call: Option<Call>)

  /** The `.fa-heart` click handler as written: after the toggle, `far` selects
      `addFavorite`, otherwise `fas` selects `removeFavorite`, otherwise nothing. */
  function HeartClick(cs: ClassSet, currentUser: Option<User>, storyId: string): (r: Click)
    ensures currentUser.None? <==> r.TypeErrorThrown?
    ensures r.Clicked? ==> r.classes == ToggleClass(cs, HeartStyles)
    ensures r.Clicked? ==>
      (r.call == Some(AddFavorite(currentUser.value.loginToken, storyId)) <==> Regular !in cs)
    ensures r.Clicked? ==>
      (r.call == Some(RemoveFavorite(currentUser.value.loginToken, storyId)) <==> Regular in cs && Solid !in cs)
    ensures r.Clicked? ==> (r.call == None <==> Regular in cs && Solid in cs)
  {
    match currentUser
    case None => TypeErrorThrown
    case Some(u) =>
      var after := ToggleClass(cs, HeartStyles);
      ToggleHeartFlips(cs);
      if Regular in after then Clicked(after, Some(AddFavorite(u.loginToken, storyId)))
      else if Solid in after then Clicked(after, Some(RemoveFavorite(u.loginToken, storyId)))
      else Clicked(after, None)
  }

  /** The first click on a freshly rendered heart turns it solid, the style of a
      favorite, yet issues `removeFavorite`. */
  lemma FirstClickRemoves(u: User, storyId: string)
    ensures HeartClick(RenderedHeart, Some(u), storyId) ==
      Clicked({Solid, "fa-heart"}, Some(RemoveFavorite(u.loginToken, storyId)))
  {
  }

  /** The click handler with the dispatch the icon's styles call for: a heart
      that became solid adds the favorite, one that became regular removes it. */
  function HeartClickIntended(cs: ClassSet, currentUser: Option<User>, storyId: string): (r: Click)
    ensures currentUser.None? <==> r.TypeErrorThrown?
    ensures r.Clicked? ==> r.classes == ToggleClass(cs, HeartStyles)
    ensures r.Clicked? ==>
      (r.call == Some(AddFavorite(currentUser.value.loginToken, storyId)) <==> Solid !in cs)
    ensures r.Clicked? ==>
      (r.call == Some(RemoveFavorite(currentUser.value.loginToken, storyId)) <==> Solid in cs && Regular !in cs)
    ensures r.Clicked? ==> (r.call == None <==> Regular in cs && Solid in cs)
  {
    match currentUser
    case None => TypeErrorThrown
    case Some(u) =>
      var after := ToggleClass(cs, HeartStyles);
      ToggleHeartFlips(cs);
      if Solid in after then Clicked(after, Some(AddFavorite(u.loginToken, storyId)))
      else if Regular in after then Clicked(after, Some(RemoveFavorite(u.loginToken, storyId)))
      else Clicked(after, None)
  }

  /** With the intended dispatch, on a heart showing one style, the call agrees
      with what the heart shows afterwards: solid means added, regular removed. */
  lemma IntendedCallMatchesView(cs: ClassSet, u: User, storyId: string)
    requires OneStyle(cs)
    ensures HeartClickIntended(cs, Some(u), storyId).classes == ToggleClass(cs, HeartStyles)
    ensures Solid in ToggleClass(cs, HeartStyles) <==>
      HeartClickIntended(cs, Some(u), storyId).call == Some(AddFavorite(u.loginToken, storyId))
    ensures Regular in ToggleClass(cs, HeartStyles) <==>
      HeartClickIntended(cs, Some(u), storyId).call == Some(RemoveFavorite(u.loginToken, storyId))
  {
  }

  /** With the intended dispatch, the first click on a rendered heart adds the favorite. */
  lemma FirstClickIntendedAdds(u: User, storyId: string)
    ensures HeartClickIntended(RenderedHeart, Some(u), storyId) ==
      Clicked({Solid, "fa-heart"}, Some(AddFavorite(u.loginToken, storyId)))
  {
  }

  /** Two clicks on a heart showing one style restore its classes and issue one
      add and one remove, as written and as intended alike. */
  lemma TwoClicksAlternate(cs: ClassSet, u: User, storyId: string)
    requires OneStyle(cs)
    ensures HeartClick(HeartClick(cs, Some(u), storyId).classes, Some(u), storyId).classes == cs
    ensures {HeartClick(cs, Some(u), storyId).call,
             HeartClick(HeartClick(cs, Some(u), storyId).classes, Some(u), storyId).call}
         == {Some(AddFavorite(u.loginToken, storyId)), Some(RemoveFavorite(u.loginToken, storyId))}
    ensures HeartClickIntended(HeartClickIntended(cs, Some(u), storyId).classes, Some(u), storyId).classes == cs
    ensures {HeartClickIntended(cs, Some(u), storyId).call,
             HeartClickIntended(HeartClickIntended(cs, Some(u), storyId).classes, Some(u), storyId).call}
         == {Some(AddFavorite(u.loginToken, storyId)), Some(RemoveFavorite(u.loginToken, storyId))}
  {
  }
}
