/**
 The `key=value` settings files two of the scripts read: each line sets at
 most one key, and a key set twice keeps the value of its last line.
 */
module Settings {
  import opened Wrappers
  import opened Sequences

  type Setting = Option<(string, string)>

  /** Setting `i` sets `key`. */
  predicate Sets(settings: seq<Setting>, i: int, key: string) {
    0 <= i < |settings| && settings[i].Some? && settings[i].value.0 == key
  }

  /** Setting `i` is the last that sets `key`. */
  predicate LastSets(settings: seq<Setting>, i: int, key: string) {
    Sets(settings, i, key) && forall j :: i < j < |settings| ==> !Sets(settings, j, key)
  }

  /**
   `cfg` is what the settings leave behind: a key is set exactly when some
   setting sets it, and its value is that of the last such setting.
   */
  ghost predicate Collected(settings: seq<Setting>, cfg: map<string, string>) {
    && (forall k :: k in cfg <==> exists i :: Sets(settings, i, k))
    && (forall k :: k in cfg ==> exists i :: LastSets(settings, i, k) && settings[i].value.1 == cfg[k])
  }

  /** `config[key] = value` for each setting in turn. */
  function Collect(settings: seq<Setting>): (cfg: map<string, string>)
    ensures Collected(settings, cfg)
  {
    if |settings| == 0 then map[]
    else
      var n := |settings| - 1;
      var prev := Collect(settings[..n]);
      match settings[n]
      case None =>
        CollectedSkip(settings, prev);
        prev
      case Some((key, value)) =>
        CollectedSet(settings, prev, key, value);
        prev[key := value]
  }

  /** A last line that sets nothing leaves the settings of the lines before it. */
  lemma CollectedSkip(settings: seq<Setting>, prev: map<string, string>)
    requires |settings| > 0 && settings[|settings| - 1].None?
    requires Collected(settings[..|settings| - 1], prev)
    ensures Collected(settings, prev)
  {
    var n := |settings| - 1;
    forall k ensures k in prev <==> exists i :: Sets(settings, i, k) {
      if k in prev {
        var i :| Sets(settings[..n], i, k);
        assert Sets(settings, i, k);
      }
      if exists i :: Sets(settings, i, k) {
        var i :| Sets(settings, i, k);
        assert Sets(settings[..n], i, k);
      }
    }
    forall k | k in prev ensures exists i :: LastSets(settings, i, k) && settings[i].value.1 == prev[k] {
      var i :| LastSets(settings[..n], i, k) && settings[..n][i].value.1 == prev[k];
      forall j | i < j < |settings| ensures !Sets(settings, j, k) {
        if j < n {
          assert !Sets(settings[..n], j, k) && settings[..n][j] == settings[j];
        }
      }
      assert settings[..n][i] == settings[i];
      assert LastSets(settings, i, k);
    }
  }

  /** A last line that sets `key` overrides it and keeps every other key. */
  lemma CollectedSet(settings: seq<Setting>, prev: map<string, string>, key: string, value: string)
    requires |settings| > 0 && settings[|settings| - 1] == Some((key, value))
    requires Collected(settings[..|settings| - 1], prev)
    ensures Collected(settings, prev[key := value])
  {
    var n := |settings| - 1;
    var cfg := prev[key := value];
    assert Sets(settings, n, key) && LastSets(settings, n, key);
    forall k ensures k in cfg <==> exists i :: Sets(settings, i, k) {
      if k in prev {
        var i :| Sets(settings[..n], i, k);
        assert Sets(settings, i, k);
      }
      if k != key && exists i :: Sets(settings, i, k) {
        var i :| Sets(settings, i, k);
        assert Sets(settings[..n], i, k);
      }
    }
    forall k | k in cfg && k != key ensures exists i :: LastSets(settings, i, k) && settings[i].value.1 == cfg[k] {
      var i :| LastSets(settings[..n], i, k) && settings[..n][i].value.1 == prev[k];
      forall j | i < j < |settings| ensures !Sets(settings, j, k) {
        if j < n {
          assert !Sets(settings[..n], j, k) && settings[..n][j] == settings[j];
        }
      }
      assert settings[..n][i] == settings[i];
      assert LastSets(settings, i, k);
    }
  }

  /** A key is set exactly when some setting sets it. */
  lemma CollectKeys(settings: seq<Setting>, key: string)
    ensures key in Collect(settings) <==> exists i :: Sets(settings, i, key)
  {
  }

  /** Every key and value collected comes from one of the settings. */
  lemma CollectFrom(settings: seq<Setting>, key: string) returns (i: nat)
    requires key in Collect(settings)
    ensures i < |settings| && settings[i] == Some((key, Collect(settings)[key]))
  {
    var cfg := Collect(settings);
    i :| LastSets(settings, i, key) && settings[i].value.1 == cfg[key];
  }

  /** The value of a key is that of the last setting that sets it. */
  lemma CollectLast(settings: seq<Setting>, i: int, key: string)
    requires LastSets(settings, i, key)
    ensures key in Collect(settings) && Collect(settings)[key] == settings[i].value.1
  {
    var cfg := Collect(settings);
    var last :| LastSets(settings, last, key) && settings[last].value.1 == cfg[key];
    assert last == i;
  }

  /**
   The required keys absent from the settings, in the order they are
   required.
   */
  function Missing(required: seq<string>, cfg: map<string, string>): (r: seq<string>)
    ensures forall i :: 0 <= i < |r| ==> r[i] in required && r[i] !in cfg
    ensures forall i :: 0 <= i < |required| && required[i] !in cfg ==> required[i] in r
    ensures forall i, j :: 0 <= i < j < |r| ==> FirstIndex(required, r[i]) < FirstIndex(required, r[j])
    decreases |required|
  {
    if |required| == 0 then []
    else
      var n := |required| - 1;
      var prev := Missing(required[..n], cfg);
      assert required == required[..n] + [required[n]];
      forall x | x in prev ensures FirstIndex(required, x) == FirstIndex(required[..n], x) < n {
        FirstIndexPrefix(required, n, x);
      }
      if required[n] in cfg || required[n] in prev then prev
      else
        assert FirstIndex(required, required[n]) == n;
        prev + [required[n]]
  }
}
