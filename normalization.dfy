/**
 * `get_preprocessor` of `preprocessing/normalization.py`: which columns of X are categorical,
 * which are numerical, and which transformer steps each numerical column gets. The column
 * statistics pandas computes (minimum, skewness) are given with the column.
 */
module Normalization {
  import opened Wrappers
  import opened Text

  /**
   * A column of X: its name, whether its dtype is numeric, and its minimum and skewness, None
   * where pandas gives NaN (an all-NaN column, or too few values for a skewness).
   */
  datatype Column = Column(name: string, numeric: bool, minimum: Option<real>, skewness: Option<real>)

  function Names(columns: seq<Column>): (names: seq<string>)
    ensures |names| == |columns|
    ensures forall k :: 0 <= k < |columns| ==> names[k] == columns[k].name
  {
    seq(|columns|, k requires 0 <= k < |columns| => columns[k].name)
  }

  /** `[col for col in X.columns if col.startswith('Formation_')]`. */
  function FormationColumns(names: seq<string>): (r: seq<string>)
    ensures forall x :: x in r <==> x in names && StartsWith(x, "Formation_")
  {
    if names == [] then []
    else
      var init := names[..|names| - 1];
      var last := names[|names| - 1];
      assert names == init + [last];
      FormationColumns(init) + (if StartsWith(last, "Formation_") then [last] else [])
  }

  /** The categorical list as the code builds it, the 'Formation_encoded' fallback included. */
  function Categorical(names: seq<string>): seq<string> {
    var clusters :=
      (if "kmeans_cluster" in names then ["kmeans_cluster"] else []) +
      (if "agglo_cluster" in names then ["agglo_cluster"] else []);
    var formations := FormationColumns(names);
    if formations != [] then clusters + formations
    else if "Formation_encoded" in names then clusters + ["Formation_encoded"]
    else clusters
  }

  /** The loop that builds `categorical_features` by appending. */
  method CategoricalFeatures(names: seq<string>) returns (categorical: seq<string>)
    ensures categorical == Categorical(names)
  {
    categorical := [];
    if "kmeans_cluster" in names {
      categorical := categorical + ["kmeans_cluster"];
    }
    if "agglo_cluster" in names {
      categorical := categorical + ["agglo_cluster"];
    }
    var formationOhe := FormationColumns(names);
    if formationOhe != [] {
      categorical := categorical + formationOhe;
    } else if "Formation_encoded" in names {
      categorical := categorical + ["Formation_encoded"];
    }
  }

  /**
   * The label-encoding fallback never fires: 'Formation_encoded' starts with 'Formation_', so the
   * list is the clusters present, then every 'Formation_' column in column order.
   */
  lemma FormationEncodedUnreachable(names: seq<string>)
    ensures Categorical(names) ==
      (if "kmeans_cluster" in names then ["kmeans_cluster"] else []) +
      (if "agglo_cluster" in names then ["agglo_cluster"] else []) +
      FormationColumns(names)
    ensures forall x :: x in Categorical(names) <==>
      x in names && (x == "kmeans_cluster" || x == "agglo_cluster" || StartsWith(x, "Formation_"))
  {
    if "Formation_encoded" in names {
      assert StartsWith("Formation_encoded", "Formation_");
      assert "Formation_encoded" in FormationColumns(names);
    }
  }

  /** `[col for col in X.columns if col not in categorical_features and is_numeric_dtype(X[col])]`. */
  function Numerical(columns: seq<Column>, categorical: seq<string>): (r: seq<string>)
    ensures forall x :: x in r <==> x !in categorical && exists k :: 0 <= k < |columns| && columns[k].name == x && columns[k].numeric
  {
    if columns == [] then []
    else
      var init := columns[..|columns| - 1];
      var last := columns[|columns| - 1];
      assert forall k :: 0 <= k < |init| ==> columns[k] == init[k];
      Numerical(init, categorical) + (if last.name !in categorical && last.numeric then [last.name] else [])
  }

  /** The pipeline steps of one numerical column. */
  datatype Step = YeoJohnson | BoxCox | StandardScaler

  /**
   * A column with a negative minimum gets Yeo-Johnson, else a column with |skewness| > 1 gets
   * Box-Cox, and every column ends with the standard scaler; NaN compares false both times.
   */
  function StepsFor(c: Column): seq<Step> {
    var hasNegative := c.minimum.Some? && c.minimum.value < 0.0;
    var skewed := c.skewness.Some? && (c.skewness.value > 1.0 || c.skewness.value < -1.0);
    (if hasNegative then [YeoJohnson] else if skewed then [BoxCox] else []) + [StandardScaler]
  }

  /**
   * Every column ends with exactly one scaler after at most one power transform; Box-Cox, which
   * needs positive data, is only chosen when the minimum is not negative, and Yeo-Johnson only
   * when it is.
   */
  lemma StepsShape(c: Column)
    ensures var steps := StepsFor(c);
      && 1 <= |steps| <= 2 && steps[|steps| - 1] == StandardScaler
      && (forall k :: 0 <= k < |steps| - 1 ==> steps[k] != StandardScaler)
      && (YeoJohnson in steps <==> c.minimum.Some? && c.minimum.value < 0.0)
      && (BoxCox in steps ==> c.minimum.None? || c.minimum.value >= 0.0)
      && (BoxCox in steps <==>
            !(c.minimum.Some? && c.minimum.value < 0.0) && c.skewness.Some? &&
            (c.skewness.value > 1.0 || c.skewness.value < -1.0))
  {
  }

  /** `X[column]`: the first column of that name. */
  function Named(columns: seq<Column>, name: string): (c: Column)
    requires name in Names(columns)
    ensures c in columns && c.name == name
  {
    var k := FirstWhere(Names(columns), x => x == name);
    columns[k]
  }

  /** One `(column, Pipeline(steps), [column])` entry of the numerical pipeline. */
  datatype Transformer = Transformer(name: string, steps: seq<Step>, applyTo: seq<string>)

  /** The `ColumnTransformer`: numerical pipelines, passed-through categorical columns, the rest dropped. */
  datatype Preprocessor = Preprocessor(numerical: seq<string>, transformers: seq<Transformer>, categorical: seq<string>)

  /** The steps of one column, appended as the loop body of `get_preprocessor` decides them. */
  method TransformerSteps(series: Column) returns (steps: seq<Step>)
    ensures steps == StepsFor(series)
  {
    var hasNegative := series.minimum.Some? && series.minimum.value < 0.0;
    steps := [];
    if hasNegative {
      steps := steps + [YeoJohnson];
    } else {
      if series.skewness.Some? && (series.skewness.value > 1.0 || series.skewness.value < -1.0) {
        steps := steps + [BoxCox];
      }
    }
    steps := steps + [StandardScaler];
  }

  /** The entry `get_preprocessor` makes for a numerical column. */
  function TransformerOf(columns: seq<Column>, name: string): Transformer
    requires name in Names(columns)
  {
    Transformer(name, StepsFor(Named(columns, name)), [name])
  }

  method GetPreprocessor(columns: seq<Column>) returns (p: Preprocessor)
    ensures p.categorical == Categorical(Names(columns))
    ensures p.numerical == Numerical(columns, p.categorical)
    ensures |p.transformers| == |p.numerical|
    ensures forall k :: 0 <= k < |p.numerical| ==> p.numerical[k] in Names(columns)
    ensures forall k :: 0 <= k < |p.numerical| ==> p.transformers[k] == TransformerOf(columns, p.numerical[k])
  {
    var categorical := CategoricalFeatures(Names(columns));
    var numerical := Numerical(columns, categorical);
    forall k | 0 <= k < |numerical| ensures numerical[k] in Names(columns) {
      assert numerical[k] in numerical;
      var j :| 0 <= j < |columns| && columns[j].name == numerical[k] && columns[j].numeric;
    }
    var transformers := [];
    for i := 0 to |numerical|
      invariant |transformers| == i
      invariant forall k :: 0 <= k < i ==> transformers[k] == TransformerOf(columns, numerical[k])
    {
      var column := numerical[i];
      var series := Named(columns, column);
      var steps := TransformerSteps(series);
      transformers := transformers + [Transformer(column, steps, [column])];
    }
    p := Preprocessor(numerical, transformers, categorical);
  }

  /**
   * Every column of X is scaled, passed through or dropped, and no column is both scaled and
   * passed through: scaled are the numeric columns that are not categorical, dropped are the
   * non-numeric columns that are not categorical.
   */
  lemma ColumnsPartitioned(columns: seq<Column>, k: nat)
    requires k < |columns|
    ensures var cat := Categorical(Names(columns));
      var num := Numerical(columns, cat);
      && (forall x :: x in num ==> x !in cat)
      && (columns[k].name in cat || columns[k].name in num || !columns[k].numeric)
      && (columns[k].name !in cat && columns[k].numeric ==> columns[k].name in num)
  {
  }
}
