# Mushroom classifier: data preparation, training and prediction service

This project is a Dafny model of the core of ChayDoAn, a small mushroom
edibility classifier built on the UCI "agaricus-lepiota" data set. The core has
three parts:

- **Preparation** (`load_and_prepare_data`). The 23 categorical columns of the
  data set are prepared in two steps. First, every unknown `stalk-root` value
  `?` is replaced by the most frequent known value, and that choice is recorded
  in `replace_map`. Second, each column is label-encoded with its own
  `LabelEncoder`, and the encoders are kept in `label_encoders`.
- **Training** (`train_and_display`). Each registered classifier is scored over
  ten seeded 80/20 hold-out runs. The average accuracy and the average number of
  misclassified rows are tabulated. The best score starts at 0 and only a
  strictly greater average replaces it, so the kept classifier is the first one
  in registry order with the largest average above 0, or none at all. It is
  persisted as the triple `(best_model, label_encoders, replace_map)`.
- **Serving** (the Flask app). `upload_model` installs a pickled artifact by its
  shape (triple, pair, or anything else) into the globals `model`,
  `label_encoders` and `replace_map`. `predict` then runs on an uploaded CSV:
  - it rewrites each encoded column, replacing `?` with the recorded
    replacement or with the encoder's first class;
  - it label-encodes the column;
  - it classifies the table, decodes the `class` labels and numbers the rows
    from 1.

Modules:

- `Wrappers`: `Option` and `Result`.
- `StringOrder`: Python's `<` on strings, which is lexicographic by code point.
  It is proved irreflexive, transitive, total and asymmetric.
- `LabelEncoder`: scikit-learn's `LabelEncoder`. The classes are the sorted
  distinct values, and a value's code is its index among them.
- `Series`: the pandas operations used on the `stalk-root` column: `replace`,
  filtering out the marker, and `mode()[0]` (through an occurrence count).
- `Artifact`: the classifier handles and the shapes a pickled artifact can take.
- `TrainCore`: `load_and_prepare_data`. It is a specification function
  `Prepare` plus an imperative method that runs the source's column loop.
- `TrainModel`: `train_and_display`, without the GUI.
- `App`: the serving process. Its three globals are a `class Server`, with
  `UploadModel` and `Predict` methods, and `Predict` is proved equal to the
  specification function `PredictSpec`.

## Model

| member | source | states |
|---|---|---|
| LabelEncoder.Insert | ChayDoAn/train_core.py:31-32 | inserting a value into a strictly sorted class list keeps it strictly sorted and adds exactly that value |
| LabelEncoder.Fit | ChayDoAn/train_core.py:31-32 | the fitted classes are strictly sorted and are exactly the distinct values of the column |
| LabelEncoder.IndexOf | ChayDoAn/train_core.py:32 | the code found for a value is an index holding that value; None exactly when the value is not a class |
| LabelEncoder.Transform | ChayDoAn/train_core.py:32 | encoding succeeds iff every cell is a known class; the codes keep the column's length, are below the class count and name their cell |
| LabelEncoder.InverseTransform | ChayDoAn/app.py:126 | decoding succeeds iff every code is in range, and each decoded value is the class at that code |
| LabelEncoder.FitTransform | ChayDoAn/train_core.py:31-32 | the encoder's classes are sorted and are exactly the column's values, and the codes are what transform gives for the column |
| LabelEncoder.RoundTrip | ChayDoAn/train_core.py:31-33 | decoding the codes of an encoded column gives back the column |
| LabelEncoder.InverseRoundTrip | ChayDoAn/app.py:126 | with sorted classes, encoding the decoded values gives back the codes |
| LabelEncoder.TransformInjective | ChayDoAn/train_core.py:32 | two columns with the same codes under one encoder are equal |
| LabelEncoder.FitCardinality | ChayDoAn/train_core.py:31-32 | the number of classes equals the number of distinct values in the column |
| LabelEncoder.FitSurjective | ChayDoAn/train_core.py:31-32 | fit_transform uses every code from 0 up to the class count minus one |
| Series.ReplaceAll | ChayDoAn/train_core.py:26 | `Series.replace('?', v)`; its effect is stated by TrainCore.SubstitutionKeepsOtherCells and App.PlaceholderRule |
| Series.NonMarker | ChayDoAn/train_core.py:25 | the filtered cells are exactly the column's cells other than `?` |
| Series.Count | ChayDoAn/train_core.py:25 | an occurrence count is at most the column's length and is zero iff the value is absent |
| Series.NonMarkerCount | ChayDoAn/train_core.py:25 | filtering out `?` does not change the count of any other value |
| Series.FirstMostFrequent | ChayDoAn/train_core.py:25 | the chosen candidate is at least as frequent as every candidate and strictly more frequent than every earlier one |
| Series.Mode | ChayDoAn/train_core.py:25 | `mode()[0]` is absent exactly for an empty series, and is otherwise a value of the series |
| Series.ModeIsSmallestMostFrequent | ChayDoAn/train_core.py:25 | the mode is at least as frequent as any value, and among the values tying with it the mode is the smallest in string order |
| TrainCore.StalkRootReplacement | ChayDoAn/train_core.py:23-27 | the recorded `replace_map`, or the error when `mode()[0]` raises; its shape and value are stated by TrainCore.ReplaceMapShape and TrainCore.ReplacementIsMode |
| TrainCore.Filled | ChayDoAn/train_core.py:24-26 | the table after substitution; stated by TrainCore.SubstitutionKeepsOtherCells and TrainCore.StalkRootHasNoMarker |
| TrainCore.EncodedTable | ChayDoAn/train_core.py:30-32 | one `fit_transform` code column per column; its codes are dense and decode back to the column (TrainCore.CodesDense, TrainCore.DecodeGivesFilledColumn) |
| TrainCore.FittedEncoders | ChayDoAn/train_core.py:30-33 | one encoder per column, fitted on that column; stated by TrainCore.EncodersPerColumn and TrainCore.MarkerNotInStalkRootDomain |
| TrainCore.Prepare | ChayDoAn/train_core.py:23-35 | the whole preparation as a value; the method TrainCore.LoadAndPrepareData equals it, and the TrainCore lemmas state its properties |
| TrainCore.EncodeColumns | ChayDoAn/train_core.py:29-33 | the column loop yields exactly the per-column fit_transform codes and the per-column fitted encoders |
| TrainCore.LoadAndPrepareData | ChayDoAn/train_core.py:11-35 | the result equals the preparation function; it fails exactly when `stalk-root` holds `?` and no known value, which is where `mode()[0]` raises |
| TrainCore.StalkRootHasNoMarker | ChayDoAn/train_core.py:24-26 | after substitution `stalk-root` contains no `?` |
| TrainCore.MarkerNotInStalkRootDomain | ChayDoAn/train_core.py:24-33 | substitution happens before fitting, so `?` is not a class of the `stalk-root` encoder |
| TrainCore.ReplaceMapShape | ChayDoAn/train_core.py:23-27 | `replace_map` has the single key `stalk-root` if that column held `?`, and is empty otherwise |
| TrainCore.ReplacementIsMode | ChayDoAn/train_core.py:24-27 | the recorded replacement is a known `stalk-root` value that occurs at least as often as any other known value, and is the smallest of the values that tie with it |
| TrainCore.SubstitutionKeepsOtherCells | ChayDoAn/train_core.py:24-26 | substitution keeps every column and its length, and changes only the `?` cells of `stalk-root`, into the recorded replacement |
| TrainCore.EncodersPerColumn | ChayDoAn/train_core.py:29-35 | there is one encoder and one encoded column per data-set column, including `class`, `cap-shape`, `odor` and `gill-size` |
| TrainCore.CodesDense | ChayDoAn/train_core.py:29-33 | each encoded column uses exactly the codes from 0 up to its distinct-value count minus one |
| TrainCore.DecodeGivesFilledColumn | ChayDoAn/train_core.py:29-33 | inverse_transform with a column's encoder gives back that column after substitution |
| TrainModel.Misclassified | ChayDoAn/train_model.py:32 | the misclassified count is at most the test size, and is zero iff every prediction equals its label |
| TrainModel.Names | ChayDoAn/train_model.py:21 | the registry's key set is exactly the candidates' names |
| TrainModel.AccuracySum | ChayDoAn/train_model.py:22-33 | the accuracies of seeds 0..runs-1 added up; TrainModel.RepeatedHoldout's loop is proved to compute it |
| TrainModel.MissSum | ChayDoAn/train_model.py:23-34 | the misclassification counts of seeds 0..runs-1 added up; TrainModel.RepeatedHoldout's loop is proved to compute it |
| TrainModel.AverageAccuracy | ChayDoAn/train_model.py:36 | `acc_sum / 10`; TrainModel.RepeatedHoldout returns it |
| TrainModel.AverageMisclassified | ChayDoAn/train_model.py:37 | `int(miss_sum / 10)`, floor division since the sum is non-negative; TrainModel.RepeatedHoldout returns it |
| TrainModel.AccuracyTable | ChayDoAn/train_model.py:39-40 | `acc_dict` after scoring the registry in order; keys and entries are stated by TrainModel.TableKeys and TrainModel.TableEntries |
| TrainModel.MisclassTable | ChayDoAn/train_model.py:41 | `misclass_dict` after scoring the registry in order; keys and entries are stated by TrainModel.TableKeys and TrainModel.TableEntries |
| TrainModel.FirstBest | ChayDoAn/train_model.py:43-46 | candidate k has an average above 0, no average exceeds it, and every earlier one is strictly below it; TrainModel.Selection uses it for the kept candidate |
| TrainModel.RepeatedHoldout | ChayDoAn/train_model.py:22-37 | the ten seeded runs with test size 0.2 give the accuracy sum divided by 10, and the miss sum divided by 10 rounded down |
| TrainModel.TableKeys | ChayDoAn/train_model.py:39-41 | the accuracy and misclassification tables are keyed exactly by the registry's names |
| TrainModel.TableEntries | ChayDoAn/train_model.py:39-41 | with distinct names, each name maps to its own candidate's averages |
| TrainModel.Selection | ChayDoAn/train_model.py:13-49 | the tables equal the per-candidate averages; no average exceeds the non-negative best score; no model is chosen iff no average is above 0, and otherwise the first candidate with the maximal average is chosen; the saved artifact is the triple of that object, the encoders and `replace_map` |
| TrainModel.SelectBest | ChayDoAn/train_model.py:18-49 | the scoring loop and the dump satisfy `Selection` for the given prepared data |
| TrainModel.TrainAndDisplay | ChayDoAn/train_model.py:9-49 | fails exactly when preparation fails (`stalk-root` holds only `?`), with that error, and then nothing is scored or saved; otherwise `Selection` holds for the registry scored on the prepared table, and the saved triple carries that preparation's encoders and `replace_map` |
| App.Readable | ChayDoAn/app.py:127-132 | `label_meaning.get(label, label)`: `e` and `p` become their readable texts, anything else stays; used by App.PredictRows |
| App.Placeholder | ChayDoAn/app.py:116-120 | the marker's replacement, `replace_map[col]` or else `classes_[0]`; stated by App.PlaceholderRule |
| App.PrepareColumn | ChayDoAn/app.py:114-121 | one column's substitution and `transform`; stated by App.PlaceholderRule and App.UnseenValueRejected |
| App.EncodeFrame | ChayDoAn/app.py:113-121 | the loop over the columns in header order; stated by App.EncodeFrameOutcome, and App.Server.Predict's loop is proved to compute it |
| App.NumberedRows | ChayDoAn/app.py:131-133 | the result rows, numbered from 1; stated by App.PredictRows |
| App.PredictSpec | ChayDoAn/app.py:97-133 | the whole of `predict` as a value; App.Server.Predict equals it, and App.UnseenValueFailsPrediction, App.PredictRows and App.NoClassEncoderFails state its cases |
| App.PlaceholderRule | ChayDoAn/app.py:113-121 | a column that encodes has a placeholder whenever it holds `?`; its codes keep its length, and each code names the placeholder for a `?` cell and the cell itself otherwise |
| App.UnseenValueRejected | ChayDoAn/app.py:115-121 | a cell whose substituted value is not a class of the encoder makes the column fail; it is neither dropped nor given a code |
| App.EncodeFrameOutcome | ChayDoAn/app.py:113-121 | rewriting the table fails iff some listed column with an encoder fails to prepare; on success those columns hold their codes and every other column is unchanged |
| App.UnseenValueFailsPrediction | ChayDoAn/app.py:109-121 | with a model loaded, one unseen value in an encoded column makes the prediction an error |
| App.PredictRows | ChayDoAn/app.py:123-133 | when the classifier's codes are valid for the `class` encoder, there is one result row per prediction, numbered from 1, with the readable text of the decoded label |
| App.NoClassEncoderFails | ChayDoAn/app.py:126 | with a model but no `class` encoder (for example a bare-classifier artifact), every prediction fails |
| App.Server.constructor | ChayDoAn/app.py:13-15 | the service starts with no model and empty encoder and replacement maps |
| App.Server.UploadModel | ChayDoAn/app.py:74-92 | a triple installs all three parts; a pair installs the model and encoders and empties `replace_map`; any other object becomes the model with both maps emptied; without a file nothing changes |
| App.Server.Predict | ChayDoAn/app.py:95-140 | without a model the result is the "no model" error; otherwise the result equals the prediction function over the current globals, that is no file, column rewriting, classification on the columns in header order, decoding and row numbering |

Details of two of the rows above:

- **TrainModel.Selection** states the following.
  - The tables equal the per-candidate averages.
  - The best score is non-negative and no candidate's average exceeds it.
  - No model is chosen exactly when no average is above 0. The source starts
    from a best score of 0 and compares with a strict `>`. Then the saved model
    is `None` and the best score is 0.
  - Otherwise the chosen candidate is the first one with the maximal average,
    and its name, object and score are the ones reported.
  - The persisted artifact is always the triple of that object, the encoders
    and `replace_map`.
- **App.EncodeFrameOutcome** states the following.
  - The table rewrite fails exactly when some listed column that has an encoder
    fails to prepare.
  - On success, every such column holds its codes.
  - Every other column is left unchanged.

## Left out

- Network and file I/O are parameters, not modelled operations. This covers:
  - `read_csv` of the UCI URL: the raw table is an input;
  - saving the upload: the uploaded CSV is an input;
  - `pickle.load` and `pickle.dump`: the loaded object is a `Loaded` value,
    and the persisted triple is the `saved` field of the report.
- An unreadable pickle file is left out. `pickle.load` would raise before any
  global changes, and Flask would answer with a server error.
- Flask routing, HTML rendering and flash messages are left out. An error is a
  `PredictError` value instead of a flashed message and a redirect.
- The `train_model.py` GUI (Tkinter widgets and the Matplotlib chart) is left
  out.
- The classifiers are opaque handles:
  - Random Forest, Naive Bayes and KNN;
  - `model.fit`, `model.predict`, `train_test_split` and `accuracy_score`.

  Prediction is a parameter `classify`, which receives the header order and
  the encoded columns. One hold-out run on the encoded table `df` is a
  parameter `evaluateOn(df)(classifier, seed, testSize)` returning the accuracy
  and the (prediction, label) pairs.
- TrainModel.TrainAndDisplay: treats `evaluateOn` as a function. A Random Forest
  built without `random_state` gives different results on identical calls,
  which the model does not capture. The model also does not say that the
  persisted object is the instance last fitted, on seed 9.
- TrainModel.RepeatedHoldout: uses real arithmetic for `acc_sum / 10`, not
  IEEE double rounding.
- Cells and names are strings. `read_csv` type inference (numeric columns, NaN
  for empty cells) is left out, and every CSV cell is read as text, as the
  mushroom data's one-letter codes are.
- The source starts with `model = None` and also sets `label_encoders` and
  `replace_map` to `None`. The model starts them as empty maps. Nothing reads
  them before `upload_model`, because `predict` checks the model first.
- A pickled pair or triple whose components have the wrong types is left out.
  `Loaded` fixes the component types; the source would fail later, at the first
  use.
- Two behaviours of the code are modelled as written:
  - Label codes follow the sorted order of the class values, as `LabelEncoder`
    assigns them.
  - An artifact that is a bare classifier, with no encoders, is accepted by
    `upload_model` but makes every later `predict` fail at
    `label_encoders['class']` (App.NoClassEncoderFails).
- An uploaded CSV with no data rows is not given a separate error. The code has
  none: such a frame goes to the classifier like any other, so the outcome is
  whatever `classify` returns.
