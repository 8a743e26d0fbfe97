/**
 * BitmapWorkerTask.java and BitmapConverter.java: loading one tile's PNG in
 * the background.  A converter belongs to one tile view; loadImage creates a
 * worker task, records it in the list of running tasks and starts it.  The
 * task reads the file into the tile unless the tile is loaded already or
 * the task has been cancelled, then decodes the tile's bytes into the
 * bitmap the view shows, and finally takes itself off the list.
 *
 * Reading a file (processByteArray) and decoding bytes (processBitmap's
 * BitmapFactory call) are parameters: `read` gives the file's bytes or None
 * for the null of a missing file, `decode` gives a bitmap or None.
 */
module BitmapLoading {
  import opened Wrappers
  import opened Tools
  import opened Tiles
  import opened Views

  /** How doInBackground ends: a returned bitmap (or null), or the NullPointerException of decoding a null image. */
  datatype Outcome = Returned(bitmap: Option<Bitmap>) | NullImage

  /**
   * The static `tasks` list, as an object of its own.  ArrayList.remove(Object)
   * compares with equals, which for tasks is identity.
   */
  class TaskRegistry {
    var tasks: seq<BitmapWorkerTask?>

    constructor ()
      ensures tasks == []
    {
      tasks := [];
    }

    /** The registered tasks that are not null. */
    ghost function Live(): set<BitmapWorkerTask>
      reads this
    {
      set t: BitmapWorkerTask | t in tasks
    }

    /** addTask(task): appends. */
    method AddTask(task: BitmapWorkerTask?)
      modifies this
      ensures tasks == old(tasks) + [task]
    {
      tasks := tasks + [task];
    }

    /** removeTask(task): drops the first occurrence, if any. */
    method RemoveTask(task: BitmapWorkerTask?)
      modifies this
      ensures tasks == RemoveFirst(old(tasks), task)
    {
      tasks := RemoveFirst(tasks, task);
    }

    /** cancelTasks(): every registered task is asked to stop; the list itself is left alone. */
    method CancelTasks()
      modifies Live()
      ensures tasks == old(tasks)
      ensures forall t :: t in Live() ==> t.cancelled
    {
      var i := 0;
      while i < |tasks|
        invariant 0 <= i <= |tasks|
        invariant forall k :: 0 <= k < i && tasks[k] != null ==> tasks[k].cancelled
      {
        var task := tasks[i];
        if task != null {
          task.Cancel();
        }
        i := i + 1;
      }
    }
  }

  /**
   * ArrayList.remove(Object) on the model's list: the first element equal to
   * t is dropped; without one the list is returned as it is.
   */
  function RemoveFirst<T(==)>(s: seq<T>, t: T): (r: seq<T>)
    ensures t !in s ==> r == s
    ensures t in s ==> |r| == |s| - 1
  {
    if s == [] then []
    else if s[0] == t then
      assert s == [s[0]] + s[1..];
      s[1..]
    else
      assert s == [s[0]] + s[1..];
      [s[0]] + RemoveFirst(s[1..], t)
  }

  /** The other elements keep their order: everything before and after the first t. */
  lemma {:induction false} RemoveFirstKeepsOrder<T>(s: seq<T>, t: T)
    requires t in s
    ensures RemoveFirst(s, t) == s[..IndexOf(s, t)] + s[IndexOf(s, t) + 1..]
  {
    var i := IndexOf(s, t);
    if i == 0 {
      assert RemoveFirst(s, t) == s[1..];
      assert s[..0] + s[1..] == s[1..];
    } else {
      assert s[1..][i - 1] == t;
      RemoveFirstKeepsOrder(s[1..], t);
      KeepsOrderStep(s, t);
    }
  }

  /** Exactly one copy of t goes. */
  lemma {:induction false} RemoveFirstMultiset<T>(s: seq<T>, t: T)
    ensures multiset(RemoveFirst(s, t)) == multiset(s) - multiset{t}
  {
    if s != [] {
      assert s == [s[0]] + s[1..];
      if s[0] != t {
        var rest := RemoveFirst(s[1..], t);
        RemoveFirstMultiset(s[1..], t);
        assert multiset([s[0]] + rest) == multiset{s[0]} + multiset(rest);
      }
    }
  }

  lemma KeepsOrderStep<T>(s: seq<T>, t: T)
    requires s != [] && s[0] != t && t in s[1..]
    requires RemoveFirst(s[1..], t) == s[1..][..IndexOf(s[1..], t)] + s[1..][IndexOf(s[1..], t) + 1..]
    ensures RemoveFirst(s, t) == s[..IndexOf(s, t)] + s[IndexOf(s, t) + 1..]
  {
    var k := IndexOf(s[1..], t);
    assert IndexOf(s, t) == k + 1;
    SliceAroundHead(s, k);
  }

  lemma SliceAroundHead<T>(s: seq<T>, k: nat)
    requires k + 1 < |s|
    ensures s[..k + 1] + s[k + 2..] == [s[0]] + (s[1..][..k] + s[1..][k + 1..])
  {
    assert s[..k + 1] == [s[0]] + s[1..][..k];
    assert s[k + 2..] == s[1..][k + 1..];
  }

  /** Registering a task that is not yet registered and removing it again restores the list. */
  lemma {:induction false} RemoveAfterAdd<T>(s: seq<T>, t: T)
    requires t !in s
    ensures RemoveFirst(s + [t], t) == s
  {
    if s != [] {
      assert (s + [t])[1..] == s[1..] + [t];
      RemoveAfterAdd(s[1..], t);
    }
  }

  /** BitmapConverter: knows the view whose tile it loads. */
  class BitmapConverter {
    const tileView: TileView

    constructor (tileView: TileView)
      ensures this.tileView == tileView
    {
      this.tileView := tileView;
    }

    /** loadImage(): a new task for this converter, registered before it is started. */
    method LoadImage(registry: TaskRegistry) returns (task: BitmapWorkerTask)
      modifies registry
      ensures fresh(task) && task.converter == this && !task.cancelled
      ensures registry.tasks == old(registry.tasks) + [task]
    {
      task := new BitmapWorkerTask(this);
      registry.AddTask(task);
    }
  }

  class BitmapWorkerTask {
    const converter: BitmapConverter
    /** AsyncTask's cancelled flag: set by cancel(true), read by isCancelled(). */
    var cancelled: bool

    constructor (converter: BitmapConverter)
      ensures this.converter == converter && !cancelled
    {
      this.converter := converter;
      cancelled := false;
    }

    /** cancel(true): from now on isCancelled() holds. */
    method Cancel()
      modifies this
      ensures cancelled
    {
      cancelled := true;
    }

    /**
     * doInBackground(tile).  A cancel(true) may arrive while the task runs;
     * `cancelledMeanwhile` says whether one arrives before the second
     * isCancelled() check, so the first check sees the flag as it was when
     * the task began.
     */
    method DoInBackground(tile: Tile, read: Uri -> Option<seq<Byte>>, decode: seq<Byte> -> Option<Bitmap>,
                          cancelledMeanwhile: bool) returns (result: Outcome)
      modifies this, tile
      ensures cancelled == (old(cancelled) || cancelledMeanwhile)
      ensures old(tile.IsLoaded()) || old(cancelled) ==> tile.image == old(tile.image)
      ensures !old(tile.IsLoaded()) && !old(cancelled) ==>
                match read(tile.filename)
                case None => tile.image == null
                case Some(bytes) => tile.image != null && fresh(tile.image) && tile.image[..] == bytes
      ensures result == if cancelled then Returned(None)
                        else if tile.image == null then NullImage
                        else Returned(decode(tile.image[..]))
    {
      if !tile.IsLoaded() {
        if !cancelled {
          var blob: array?<Byte> := null;
          match read(tile.filename) {
            case Some(bytes) =>
              blob := new Byte[|bytes|](i requires 0 <= i < |bytes| => bytes[i]);
            case None =>
          }
          tile.SetImage(blob);
        } else {
          return Returned(None);
        }
      }
      if cancelledMeanwhile {
        cancelled := true;
      }
      if !cancelled {
        if tile.image == null {
          result := NullImage;
        } else {
          result := Returned(decode(tile.image[..]));
        }
      } else {
        result := Returned(None);
      }
    }

    /** onPostExecute(bitmap): a bitmap goes into the view, and the task leaves the list. */
    method OnPostExecute(bitmap: Option<Bitmap>, registry: TaskRegistry)
      modifies converter.tileView, registry
      ensures bitmap.Some? ==> converter.tileView.bitmap == bitmap
      ensures bitmap.None? ==> converter.tileView.bitmap == old(converter.tileView.bitmap)
      ensures converter.tileView.tile == old(converter.tileView.tile)
      ensures registry.tasks == RemoveFirst(old(registry.tasks), this)
    {
      if bitmap.Some? {
        converter.tileView.SetImageBitmap(bitmap);
      }
      registry.RemoveTask(this);
    }

    /** onCancelled(): the task leaves the list. */
    method OnCancelled(registry: TaskRegistry)
      modifies registry
      ensures registry.tasks == RemoveFirst(old(registry.tasks), this)
    {
      registry.RemoveTask(this);
    }

    /**
     * execute(tile) run to its end, as AsyncTask does it: doInBackground on
     * the view's tile, then onCancelled if the task has been cancelled and
     * onPostExecute with the result otherwise.  A NullPointerException in
     * doInBackground is the NullImage outcome, and nothing after it is
     * modelled: the run stops there.
     */
    method Execute(registry: TaskRegistry, read: Uri -> Option<seq<Byte>>, decode: seq<Byte> -> Option<Bitmap>,
                   cancelledMeanwhile: bool) returns (result: Outcome)
      modifies this, converter.tileView, converter.tileView.tile, registry
      ensures converter.tileView.tile == old(converter.tileView.tile)
      ensures cancelled == (old(cancelled) || cancelledMeanwhile)
      ensures result.NullImage? ==> !cancelled && registry.tasks == old(registry.tasks)
      ensures result.Returned? ==> registry.tasks == RemoveFirst(old(registry.tasks), this)
      ensures cancelled ==> result == Returned(None) && converter.tileView.bitmap == old(converter.tileView.bitmap)
      ensures result.Returned? && result.bitmap.Some? ==> converter.tileView.bitmap == result.bitmap
      ensures result.NullImage? || result.bitmap.None? ==> converter.tileView.bitmap == old(converter.tileView.bitmap)
      ensures var tile := converter.tileView.tile;
              old(tile.IsLoaded()) || old(cancelled) ==> tile.image == old(tile.image)
      ensures var tile := converter.tileView.tile;
              !old(tile.IsLoaded()) && !old(cancelled) ==>
                match read(tile.filename)
                case None => tile.image == null
                case Some(bytes) => tile.image != null && fresh(tile.image) && tile.image[..] == bytes
      ensures var tile := converter.tileView.tile;
              result == if cancelled then Returned(None)
                        else if tile.image == null then NullImage
                        else Returned(decode(tile.image[..]))
    {
      var view := converter.tileView;
      result := DoInBackground(view.tile, read, decode, cancelledMeanwhile);
      if result.Returned? {
        if cancelled {
          OnCancelled(registry);
        } else {
          OnPostExecute(result.bitmap, registry);
        }
      }
    }
  }
}
