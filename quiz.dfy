/** The answer state of the displayed question cards: the `answered` flag of
    each options list, the marker class of each option and the explanation
    panel, as `displayQuestions` creates them and `handleQuizAnswer` and the
    click listener change them. */
module Quiz {
  import opened Catalog

  /** The class an option item carries. */
  datatype Marker =
    | Plain             // `option-item` / `option-item-quiz`
    | CorrectAnswer     // `correct-answer`, shown statically in study mode
    | RevealedCorrect   // `revealed-correct`, added by a quiz click
    | SelectedWrong     // `selected-wrong`, added by a quiz click

  /** The explanation container: whether it holds a toggle button, and
      whether the explanation text is hidden. */
  datatype Panel = Panel(toggle: bool, hidden: bool)

  /** One question card. */
  datatype Card = Card(answered: bool, markers: seq<Marker>, panel: Panel)

  /** A card as `displayQuestions` renders it: no answer yet; in study mode
      the correct option is marked and a toggle button is offered, in quiz
      mode every option is plain and there is no button. The explanation
      starts hidden either way. */
  function FreshCard(q: Question, quiz: bool): (c: Card)
    ensures !c.answered && |c.markers| == |q.options| && c.panel.hidden && c.panel.toggle == !quiz
    ensures forall i :: 0 <= i < |c.markers| ==> c.markers[i] != RevealedCorrect && c.markers[i] != SelectedWrong
    ensures quiz ==> forall i :: 0 <= i < |c.markers| ==> c.markers[i] == Plain
    ensures !quiz ==> forall i :: 0 <= i < |c.markers| ==> (c.markers[i] == CorrectAnswer <==> i == q.correctAnswer)
  {
    var markers := seq(|q.options|, i requires 0 <= i < |q.options| =>
      if !quiz && i == q.correctAnswer then CorrectAnswer else Plain);
    Card(false, markers, Panel(!quiz, true))
  }

  /** The cards `displayQuestions` renders: they fit the questions, none is
      answered and no option carries an answer marker. */
  function FreshCards(qs: seq<Question>, quiz: bool): (cs: seq<Card>)
    ensures Fits(cs, qs)
    ensures forall i :: 0 <= i < |cs| ==> !cs[i].answered && cs[i].panel.hidden
    ensures forall i, j :: 0 <= i < |cs| && 0 <= j < |cs[i].markers| ==>
      cs[i].markers[j] != RevealedCorrect && cs[i].markers[j] != SelectedWrong
    ensures |cs| == |qs| && forall i :: 0 <= i < |qs| ==> cs[i] == FreshCard(qs[i], quiz)
  {
    seq(|qs|, i requires 0 <= i < |qs| => FreshCard(qs[i], quiz))
  }

  /** The cards belong to the questions: one card per question, one marker per option. */
  predicate Fits(cards: seq<Card>, qs: seq<Question>)
  {
    |cards| == |qs| && forall i :: 0 <= i < |qs| ==> |cards[i].markers| == |qs[i].options|
  }

  /** `handleQuizAnswer` for option `s` of a card showing question `q`. The
      options list becomes answered; a correct pick is marked correct; a wrong
      pick is marked wrong and the correct option, when that index exists, is
      revealed. The explanation is re-rendered hidden behind a toggle button. */
  function Answer(c: Card, q: Question, s: nat): (r: Card)
    requires s < |c.markers|
    ensures r.answered && |r.markers| == |c.markers| && r.panel == Panel(true, true)
    ensures s == q.correctAnswer ==> r.markers[s] == RevealedCorrect
    ensures s == q.correctAnswer ==> forall j :: 0 <= j < |c.markers| && j != s ==> r.markers[j] == c.markers[j]
    ensures s != q.correctAnswer ==> r.markers[s] == SelectedWrong
    ensures s != q.correctAnswer && 0 <= q.correctAnswer < |c.markers| ==> r.markers[q.correctAnswer] == RevealedCorrect
    ensures s != q.correctAnswer ==>
      forall j :: 0 <= j < |c.markers| && j != s && j != q.correctAnswer ==> r.markers[j] == c.markers[j]
  {
    var correct := q.correctAnswer;
    var markers :=
      if s == correct then c.markers[s := RevealedCorrect]
      else
        var m := c.markers[s := SelectedWrong];
        if 0 <= correct < |m| then m[correct := RevealedCorrect] else m;
    Card(true, markers, Panel(true, true))
  }

  /** A click on option `oi` of card `qi`, as the click listener filters it:
      ignored outside quiz mode, away from an option, and on a card that is
      already answered. */
  function Click(cards: seq<Card>, qs: seq<Question>, quiz: bool, qi: int, oi: int): (r: seq<Card>)
    requires Fits(cards, qs)
    ensures Fits(r, qs)
    ensures forall j :: 0 <= j < |cards| && j != qi ==> r[j] == cards[j]
    ensures !quiz ==> r == cards
    ensures 0 <= qi < |cards| && cards[qi].answered ==> r == cards
    ensures !(0 <= qi < |cards| && 0 <= oi < |cards[qi].markers|) ==> r == cards
    ensures quiz && 0 <= qi < |cards| && 0 <= oi < |cards[qi].markers| && !cards[qi].answered ==>
      r[qi] == Answer(cards[qi], qs[qi], oi)
  {
    if quiz && 0 <= qi < |cards| && 0 <= oi < |cards[qi].markers| && !cards[qi].answered
    then cards[qi := Answer(cards[qi], qs[qi], oi)]
    else cards
  }

  /** Answer finality: once a card is answered, no later click changes any card. */
  lemma {:induction false} AnsweredIsFinal(cards: seq<Card>, qs: seq<Question>, quiz: bool,
                                           qi: int, clicks: seq<(int, int)>)
    requires Fits(cards, qs) && 0 <= qi < |cards| && cards[qi].answered
    ensures ClickAll(cards, qs, quiz, clicks)[qi] == cards[qi]
    decreases |clicks|
  {
    if clicks != [] {
      var next := Click(cards, qs, quiz, clicks[0].0, clicks[0].1);
      AnsweredIsFinal(next, qs, quiz, qi, clicks[1..]);
    }
  }

  /** A sequence of clicks, applied in order. */
  function ClickAll(cards: seq<Card>, qs: seq<Question>, quiz: bool, clicks: seq<(int, int)>): (r: seq<Card>)
    requires Fits(cards, qs)
    ensures Fits(r, qs)
    decreases |clicks|
  {
    if clicks == [] then cards
    else ClickAll(Click(cards, qs, quiz, clicks[0].0, clicks[0].1), qs, quiz, clicks[1..])
  }

  /** Only the first click on a card counts: the card's state after any clicks
      is fixed by the first click that reached it. */
  lemma {:induction false} FirstClickDecides(cards: seq<Card>, qs: seq<Question>, qi: int, oi: int,
                                             clicks: seq<(int, int)>)
    requires Fits(cards, qs) && 0 <= qi < |cards| && 0 <= oi < |cards[qi].markers| && !cards[qi].answered
    ensures ClickAll(cards, qs, true, [(qi, oi)] + clicks)[qi] == Answer(cards[qi], qs[qi], oi)
  {
    var next := Click(cards, qs, true, qi, oi);
    assert ([(qi, oi)] + clicks)[1..] == clicks;
    AnsweredIsFinal(next, qs, true, qi, clicks);
  }
}
