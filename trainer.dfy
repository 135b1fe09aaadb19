/** The deterministic rules of the SetFit training script
    (research/trainers/stransformers_setfit_trainer.py): which loader a dataset path
    selects, the keyword arguments of the evaluation metric, the table of body
    losses and the parameters it passes to the preprocessing helpers. Training
    itself is not modelled. */
module Trainer {
  import opened Text
  import Preprocessing

  /** Python's `s.rfind(c)`: the last index of c, or -1. */
  function LastIndexOf(s: string, c: char): (r: int)
    ensures -1 <= r < |s|
    ensures r == -1 <==> c !in s
    ensures r >= 0 ==> s[r] == c && forall j :: r < j < |s| ==> s[j] != c
  {
    if s == [] then -1
    else if s[|s| - 1] == c then |s| - 1
    else LastIndexOf(s[..|s| - 1], c)
  }

  /** Python's `s[i:]` for any integer i: a negative start counts from the back. */
  function SuffixFrom(s: string, i: int): (r: string)
    ensures |r| <= |s| && r == s[|s| - |r|..]
    ensures 0 <= i <= |s| ==> r == s[i..]
  {
    if i < 0 then (if |s| + i < 0 then s else s[|s| + i..])
    else if i > |s| then []
    else s[i..]
  }

  /** `file_path[file_path.rfind("."):].lower()`. */
  function FileExtension(path: string): string {
    Lower(SuffixFrom(path, LastIndexOf(path, '.')))
  }

  /** The loaders of `file_loaders`. */
  datatype Loader = ReadExcel | ReadCsv

  /** `load_dataset`'s choice of loader; `None` is its ValueError. */
  function LoadDataset(path: string): Option<Loader> {
    var extension := FileExtension(path);
    if extension == ".xlsx" then Some(ReadExcel)
    else if extension == ".csv" then Some(ReadCsv)
    else None
  }

  /** The extension is everything from the last '.', lower-cased. */
  lemma ExtensionOfDottedPath(stem: string, ext: string)
    requires '.' !in ext
    ensures FileExtension(stem + "." + ext) == Lower("." + ext)
  {
    var path := stem + "." + ext;
    var i := LastIndexOf(path, '.');
    assert path[|stem|] == '.';
    forall j | |stem| < j < |path| ensures path[j] != '.' {
      assert path[j] == ext[j - |stem| - 1];
    }
    assert i == |stem|;
    assert path[i..] == "." + ext;
  }

  /** The loader depends on the extension only, whatever its case. */
  lemma LoaderChoice(stem: string, ext: string)
    requires '.' !in ext
    ensures LoadDataset(stem + "." + ext) == Some(ReadCsv) <==> Lower("." + ext) == ".csv"
    ensures LoadDataset(stem + "." + ext) == Some(ReadExcel) <==> Lower("." + ext) == ".xlsx"
  {
    ExtensionOfDottedPath(stem, ext);
  }

  lemma LowerCsv()
    ensures Lower(".CSV") == ".csv"
  {
    var l := Lower(".CSV");
    assert l[0] == '.' && l[1] == 'c' && l[2] == 's' && l[3] == 'v';
  }

  lemma LowerXlsx()
    ensures Lower(".XLSX") == ".xlsx"
  {
    var l := Lower(".XLSX");
    assert l[0] == '.' && l[1] == 'x' && l[2] == 'l' && l[3] == 's' && l[4] == 'x';
  }

  /** Upper-case extensions are accepted. */
  lemma UpperCaseExtensionsAccepted(stem: string)
    ensures LoadDataset(stem + ".CSV") == Some(ReadCsv)
    ensures LoadDataset(stem + ".XLSX") == Some(ReadExcel)
  {
    UpperCaseCsvAccepted(stem);
    UpperCaseXlsxAccepted(stem);
  }

  lemma UpperCaseCsvAccepted(stem: string)
    ensures LoadDataset(stem + ".CSV") == Some(ReadCsv)
  {
    assert stem + ".CSV" == stem + "." + "CSV";
    ExtensionOfDottedPath(stem, "CSV");
    LowerCsv();
  }

  lemma UpperCaseXlsxAccepted(stem: string)
    ensures LoadDataset(stem + ".XLSX") == Some(ReadExcel)
  {
    assert stem + ".XLSX" == stem + "." + "XLSX";
    ExtensionOfDottedPath(stem, "XLSX");
    LowerXlsx();
  }

  /** Without a '.', `rfind` gives -1 and the "extension" is the last character (or
      nothing), which never names a loader. */
  lemma PathWithoutDotRejected(path: string)
    requires '.' !in path
    ensures |FileExtension(path)| == if path == [] then 0 else 1
    ensures LoadDataset(path) == None
  {
  }

  /** The keyword arguments of the evaluation metric. */
  function MetricKwargs(metricType: Option<string>): (kwargs: Option<map<string, string>>)
    ensures kwargs.None? <==> metricType.None?
    ensures kwargs.Some? ==> kwargs.value.Keys == {"average"} && kwargs.value["average"] == metricType.value
  {
    match metricType
    case None => None
    case Some(t) => Some(map["average" := t])
  }

  /** The `average` the metric receives, if any. */
  function AverageOf(kwargs: Option<map<string, string>>): Option<string> {
    if kwargs.Some? && "average" in kwargs.value then Some(kwargs.value["average"]) else None
  }

  /** `--metric-type` as written: argparse converts a given value by calling
      `Optional[str]`, a typing construct whose call raises TypeError, which argparse
      reports as an invalid value. Only the default `None` gets through; the outer
      `None` is the usage error. */
  function ParseMetricTypeAsWritten(argument: Option<string>): (r: Option<Option<string>>)
    ensures r.Some? <==> argument.None?
  {
    if argument.None? then Some(None) else None
  }

  /** As written, no run that gets past argument parsing hands the metric an
      `average`: "macro", the first documented choice, is refused. */
  lemma MetricTypeNeverReachesMetric(argument: Option<string>)
    ensures ParseMetricTypeAsWritten(Some("macro")).None?
    ensures ParseMetricTypeAsWritten(argument).Some? ==> AverageOf(MetricKwargs(ParseMetricTypeAsWritten(argument).value)).None?
  {
  }

  /** `--metric-type` read as a plain string (`type=str`): the value given, or `None`. */
  function ParseMetricType(argument: Option<string>): (r: Option<string>)
    ensures argument.Some? ==> r.Some? && r.value == argument.value
    ensures argument.None? ==> r.None?
  {
    argument
  }

  /** Read as a string, `--metric-type` reaches the metric: it receives `average`
      exactly when a type is given, and then that type; and the keyword arguments
      are nothing but that `average`. */
  lemma MetricTypeReachesMetric(argument: Option<string>, kwargs: map<string, string>)
    ensures AverageOf(MetricKwargs(ParseMetricType(argument))) == argument
    ensures kwargs.Keys == {"average"} ==> MetricKwargs(AverageOf(Some(kwargs))) == Some(kwargs)
  {
    if kwargs.Keys == {"average"} {
      assert "average" in kwargs;
      assert map["average" := kwargs["average"]] == kwargs;
    }
  }

  /** The values of `body_training_losses`. */
  datatype BodyLoss = CosineSimilarityLoss | SupConLoss | OnlineContrastiveLoss

  /** The keys of `body_training_losses`, which are also the argument's choices. */
  const BodyTrainingStrategies: seq<string> := ["cosine", "setfit-contrastive", "online-contrastive"]

  /** The lookup in `body_training_losses`. */
  function BodyTrainingLoss(strategy: string): Option<BodyLoss> {
    if strategy == "cosine" then Some(CosineSimilarityLoss)
    else if strategy == "setfit-contrastive" then Some(SupConLoss)
    else if strategy == "online-contrastive" then Some(OnlineContrastiveLoss)
    else None
  }

  function StrategyName(loss: BodyLoss): string {
    match loss
    case CosineSimilarityLoss => "cosine"
    case SupConLoss => "setfit-contrastive"
    case OnlineContrastiveLoss => "online-contrastive"
  }

  /** The table is a bijection between the three choices and the three losses. */
  lemma BodyLossTable(strategy: string, loss: BodyLoss)
    ensures BodyTrainingLoss(strategy).Some? <==> strategy in BodyTrainingStrategies
    ensures BodyTrainingLoss(StrategyName(loss)) == Some(loss)
    ensures BodyTrainingLoss(strategy) == Some(loss) ==> StrategyName(loss) == strategy
  {
  }

  /** `--body-training-strategy` as argparse reads it: "cosine" when absent, and
      `None` (argparse's usage error) for a value outside the choices. */
  function ParseBodyTrainingStrategy(argument: Option<string>): (r: Option<string>)
    ensures r.Some? ==> BodyTrainingLoss(r.value).Some?
    ensures argument.None? ==> r == Some("cosine")
    ensures argument.Some? ==> (r.Some? <==> argument.value in BodyTrainingStrategies)
  {
    match argument
    case None => Some("cosine")
    case Some(a) => if a in BodyTrainingStrategies then Some(a) else None
  }

  /** The sample limits passed to `limit_dataset` for the three splits. */
  const TrainMaxSamples := 500
  const EvalMaxSamples := 150
  const TestMaxSamples := 150

  /** The trainer chunks with `stride == max_length == max_seq_len`, so for a
      positive sequence length each text's tokens are cut into consecutive pieces
      that together give back the whole token list. */
  lemma TrainerChunksTile<T>(tokenizer: Preprocessing.Tokenizer<T>, text: string, maxSeqLen: int)
    requires maxSeqLen > 0
    ensures var chunks := Preprocessing.TextChunks(tokenizer, text, maxSeqLen, maxSeqLen);
      Flatten(chunks) == tokenizer.tokenize(Preprocessing.Normalize(text))
      && forall c :: c in chunks ==> 0 < |c| <= maxSeqLen
  {
    var tokens := tokenizer.tokenize(Preprocessing.Normalize(text));
    Preprocessing.WindowsTile(tokens, 0, maxSeqLen);
    Preprocessing.WindowsBounded(tokens, 0, maxSeqLen, maxSeqLen);
    assert tokens[0..] == tokens;
  }

  /** `limit_dataset` on the three splits with their limits of 500, 150 and 150: each
      limited split keeps within its limit exactly when the split has no more classes
      than that limit. */
  lemma TrainerLimits<L(!new)>(train: seq<Preprocessing.Row<L>>, eval: seq<Preprocessing.Row<L>>,
                               test: seq<Preprocessing.Row<L>>, trainLimited: seq<Preprocessing.Row<L>>,
                               evalLimited: seq<Preprocessing.Row<L>>, testLimited: seq<Preprocessing.Row<L>>)
    requires train != [] && eval != [] && test != []
    requires Preprocessing.IsLimitedSelection(train, Preprocessing.Quota(train, TrainMaxSamples).value, trainLimited)
    requires Preprocessing.IsLimitedSelection(eval, Preprocessing.Quota(eval, EvalMaxSamples).value, evalLimited)
    requires Preprocessing.IsLimitedSelection(test, Preprocessing.Quota(test, TestMaxSamples).value, testLimited)
    ensures |trainLimited| <= 500 <==> |Preprocessing.Labels(train)| <= 500
    ensures |evalLimited| <= 150 <==> |Preprocessing.Labels(eval)| <= 150
    ensures |testLimited| <= 150 <==> |Preprocessing.Labels(test)| <= 150
  {
    Preprocessing.LimitWithinMaxSamples(train, TrainMaxSamples, trainLimited);
    Preprocessing.LimitWithinMaxSamples(eval, EvalMaxSamples, evalLimited);
    Preprocessing.LimitWithinMaxSamples(test, TestMaxSamples, testLimited);
  }
}
