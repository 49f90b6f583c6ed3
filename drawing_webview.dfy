/**
 * The stroke model of the drawing webview (content/binary.js): the strokes
 * drawn so far, the stroke being drawn, the listeners notified on undo and
 * redo, and the message handler that routes the host's messages to it.
 *
 * Strokes are objects: the stroke being drawn is the same object as an
 * element of the stroke list until an undo removes it. Listeners are
 * identified by numbers; calling them appends them, in order, to the
 * model's `notified` log.
 */
module DrawingWebview {
  import opened Host

  type Listener = nat

  /** One freehand stroke; its point list grows while the mouse moves. */
  class Stroke {
    var points: seq<Point>

    /** new Stroke(points): the given points, or none when they are absent. */
    constructor (points: Option<seq<Point>>)
      ensures this.points == if points.Some? then points.value else []
    {
      this.points := if points.Some? then points.value else [];
    }

    /** Stroke.add: appends one point. */
    method Add(x: real, y: real)
      modifies this
      ensures points == old(points) + [Point(x, y)]
    {
      points := points + [Point(x, y)];
    }
  }

  /** The point lists of `strokes`, in order: what the view redraws. */
  function PointsOf(strokes: seq<Stroke>): (r: seq<seq<Point>>)
    reads strokes
    ensures |r| == |strokes|
    ensures forall i :: 0 <= i < |strokes| ==> r[i] == strokes[i].points
  {
    if |strokes| == 0 then [] else PointsOf(strokes[..|strokes| - 1]) + [strokes[|strokes| - 1].points]
  }

  /** One more stroke adds its point list at the end. */
  lemma PointsOfSnoc(strokes: seq<Stroke>, s: Stroke)
    ensures PointsOf(strokes + [s]) == PointsOf(strokes) + [s.points]
  {
    assert (strokes + [s])[..|strokes|] == strokes;
  }

  /** No stroke object occurs twice in the list. */
  ghost predicate Distinct(strokes: seq<Stroke>)
  {
    forall i, j :: 0 <= i < j < |strokes| ==> strokes[i] != strokes[j]
  }

  /** The drawing after an undo: the last stroke is gone; nothing changes when there is none. */
  function Undone(drawing: seq<seq<Point>>): seq<seq<Point>>
  {
    if |drawing| == 0 then drawing else drawing[..|drawing| - 1]
  }

  /** The drawing after a redo: one more stroke with the given points (none when absent). */
  function Redone(drawing: seq<seq<Point>>, points: Option<seq<Point>>): seq<seq<Point>>
  {
    drawing + [if points.Some? then points.value else []]
  }

  /** Undoing a stroke and redoing it with the popped stroke's points restores the drawing. */
  lemma RedoRestoresUndo(drawing: seq<seq<Point>>)
    requires drawing != []
    ensures Redone(Undone(drawing), Some(drawing[|drawing| - 1])) == drawing
  {
  }

  /** Redoing a stroke and undoing it leaves the drawing as it was. */
  lemma UndoCancelsRedo(drawing: seq<seq<Point>>, points: Option<seq<Point>>)
    ensures Undone(Redone(drawing, points)) == drawing
  {
  }

  /** The webview's Model. */
  class Model {
    var strokes: seq<Stroke>
    var currentStroke: Stroke?
    var listeners: seq<Listener>
    var notified: seq<Listener>  // listener calls, in order

    /** Every stroke appears once in the list, so extending one stroke extends one entry of the drawing. */
    ghost predicate Valid()
      reads this`strokes
    {
      Distinct(strokes)
    }

    /** The point lists of the strokes, in order. */
    function Drawing(): seq<seq<Point>>
      reads this`strokes, strokes
    {
      PointsOf(strokes)
    }

    constructor ()
      ensures Valid()
      ensures strokes == [] && currentStroke == null && listeners == [] && notified == []
    {
      strokes, currentStroke, listeners, notified := [], null, [], [];
    }

    /** listen: registers a listener after the existing ones; nothing is called. */
    method Listen(l: Listener)
      modifies this`listeners
      ensures listeners == old(listeners) + [l]
    {
      listeners := listeners + [l];
    }

    /** begin: a new, empty stroke becomes the current stroke and the last in the list; no listener is called. */
    method Begin()
      requires Valid()
      modifies this`strokes, this`currentStroke
      ensures Valid()
      ensures currentStroke != null && fresh(currentStroke)
      ensures strokes == old(strokes) + [currentStroke]
      ensures Drawing() == old(Drawing()) + [[]]
    {
      var s := new Stroke(None);
      PointsOfSnoc(strokes, s);
      currentStroke := s;
      strokes := strokes + [s];
    }

    /** end: clears the current stroke and returns it; no listener is called. */
    method End() returns (previous: Stroke?)
      modifies this`currentStroke
      ensures previous == old(currentStroke) && currentStroke == null
    {
      previous := currentStroke;
      currentStroke := null;
    }

    /**
     * add(x, y): without a current stroke nothing happens; otherwise the
     * point is appended to the current stroke, which changes the drawing
     * only where that stroke occurs in the list. No listener is called.
     */
    method Add(x: real, y: real)
      requires Valid()
      modifies currentStroke
      ensures currentStroke == null ==> Drawing() == old(Drawing())
      ensures currentStroke != null ==> currentStroke.points == old(currentStroke.points) + [Point(x, y)]
      ensures |Drawing()| == |old(Drawing())|
      ensures forall i :: 0 <= i < |strokes| ==>
                Drawing()[i] == if strokes[i] == currentStroke then old(Drawing()[i]) + [Point(x, y)] else old(Drawing()[i])
      ensures currentStroke != null && |strokes| > 0 && strokes[|strokes| - 1] == currentStroke ==>
                Drawing() == old(Drawing())[..|strokes| - 1] + [old(Drawing())[|strokes| - 1] + [Point(x, y)]]
    {
      if currentStroke == null {
        return;
      }
      currentStroke.Add(x, y);
    }

    /** undo: drops the last stroke and calls every listener once; with no stroke it does nothing at all. */
    method Undo()
      requires Valid()
      modifies this`strokes, this`notified
      ensures Valid()
      ensures Drawing() == Undone(old(Drawing()))
      ensures strokes == if |old(strokes)| == 0 then old(strokes) else old(strokes)[..|old(strokes)| - 1]
      ensures notified == old(notified) + if |old(strokes)| == 0 then [] else listeners
    {
      if |strokes| == 0 {
        return;
      }
      strokes := strokes[..|strokes| - 1];
      notified := notified + listeners;
    }

    /** redo(points): appends a new stroke with those points and calls every listener once. */
    method Redo(points: Option<seq<Point>>)
      requires Valid()
      modifies this`strokes, this`notified
      ensures Valid()
      ensures |strokes| == |old(strokes)| + 1 && strokes[..|old(strokes)|] == old(strokes)
      ensures fresh(strokes[|old(strokes)|])
      ensures Drawing() == Redone(old(Drawing()), points)
      ensures notified == old(notified) + listeners
    {
      var s := new Stroke(points);
      PointsOfSnoc(strokes, s);
      strokes := strokes + [s];
      notified := notified + listeners;
    }
  }

  /** The messages the host posts to the webview. */
  datatype Message =
    | Init(data: string)                // the URI of the initial image; its loading is not modelled
    | SaveRequest                       // 'save'
    | UndoRequest                       // 'undo'
    | RedoRequest(value: Option<seq<Point>>)  // 'redo', with the points of the stroke to restore
    | Other(kind: string)               // any other type, such as 'setValue'

  /** The messages the webview posts back to the host. */
  datatype Reply = SaveReply

  /**
   * The webview's message listener. 'undo' and 'redo' go to the model;
   * 'save' is answered with a 'save' message; 'init' only repaints; every
   * other message is ignored. Only 'undo' and 'redo' change the strokes or
   * call listeners.
   */
  method Dispatch(model: Model, msg: Message) returns (reply: Option<Reply>)
    requires model.Valid()
    modifies model`strokes, model`notified
    ensures model.Valid()
    ensures reply == if msg.SaveRequest? then Some(SaveReply) else None
    ensures msg.UndoRequest? ==>
              model.Drawing() == Undone(old(model.Drawing()))
              && model.notified == old(model.notified) + if |old(model.strokes)| == 0 then [] else model.listeners
    ensures msg.RedoRequest? ==>
              model.Drawing() == Redone(old(model.Drawing()), msg.value)
              && model.notified == old(model.notified) + model.listeners
    ensures !msg.UndoRequest? && !msg.RedoRequest? ==>
              model.strokes == old(model.strokes) && model.notified == old(model.notified)
  {
    match msg {
      case Init(_) =>
        return None;
      case SaveRequest =>
        return Some(SaveReply);
      case UndoRequest =>
        model.Undo();
        return None;
      case RedoRequest(value) =>
        model.Redo(value);
        return None;
      case Other(_) =>
        return None;
    }
  }
}
